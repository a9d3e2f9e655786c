/** The percent-encoders and the paths built with them (crates/sentinel-cli/src/hub.rs, ack.rs, query.rs):
    sections 2.1 and 2.3 of RFC 3986. A parameter value is a byte string; what is printed is ASCII text. */
module Encoding {
  import opened Text
  import opened Wrappers

  type Byte = b: int | 0 <= b < 256

  type Bytes = seq<Byte>

  predicate Alphanumeric(b: Byte) {
    'A' as int <= b <= 'Z' as int || 'a' as int <= b <= 'z' as int || '0' as int <= b <= '9' as int
  }

  predicate Unreserved(b: Byte) {
    Alphanumeric(b) || b == '-' as int || b == '.' as int || b == '_' as int || b == '~' as int
  }

  /** `is_signature_segment_safe`: the unreserved set and `:`. */
  predicate SegmentSafe(b: Byte) {
    Unreserved(b) || b == ':' as int
  }

  function HexDigit(n: nat): char
    requires n < 16
  {
    if n < 10 then '0' + n as char else 'A' + (n - 10) as char
  }

  function Escape(b: Byte): string {
    ['%', HexDigit(b / 16), HexDigit(b % 16)]
  }

  /** One printed byte, `keepColon` telling the two encoders apart. */
  function Print(b: Byte, keepColon: bool): string {
    if Unreserved(b) || (keepColon && b == ':' as int) then [b as char] else Escape(b)
  }

  function PrintAll(s: Bytes, keepColon: bool): string {
    if s == [] then "" else Print(s[0], keepColon) + PrintAll(s[1..], keepColon)
  }

  /** What one byte prints as: itself, or `%` and its two upper-case hexadecimal digits. */
  lemma PrintMeans(b: Byte, keepColon: bool)
    ensures var kept := || 65 <= b <= 90 || 97 <= b <= 122 || 48 <= b <= 57
                        || b == 45 || b == 46 || b == 95 || b == 126 || (keepColon && b == 58);
            Print(b, keepColon) == if kept then [b as char]
                                   else ['%', "0123456789ABCDEF"[b / 16], "0123456789ABCDEF"[b % 16]]
  {
    HexDigitMeans(b / 16);
    HexDigitMeans(b % 16);
  }

  lemma HexDigitMeans(n: nat)
    requires n < 16
    ensures HexDigit(n) == "0123456789ABCDEF"[n]
  {
  }

  lemma {:induction false} PrintAllAppends(s: Bytes, b: Byte, keepColon: bool)
    ensures PrintAll(s + [b], keepColon) == PrintAll(s, keepColon) + Print(b, keepColon)
  {
    if s == [] {
      assert s + [b] == [b];
      assert PrintAll([b], keepColon) == Print(b, keepColon) + PrintAll([], keepColon);
    } else {
      PrintAllAppends(s[1..], b, keepColon);
      assert (s + [b])[1..] == s[1..] + [b];
    }
  }

  /** `hub::encode`. */
  method Encode(s: Bytes) returns (out: string)
    ensures out == PrintAll(s, false)
  {
    out := "";
    for i := 0 to |s|
      invariant out == PrintAll(s[..i], false)
    {
      PrintAllAppends(s[..i], s[i], false);
      assert s[..i + 1] == s[..i] + [s[i]];
      if Alphanumeric(s[i]) || s[i] in ['-' as int, '.' as int, '_' as int, '~' as int] {
        out := out + [s[i] as char];
      } else {
        out := out + Escape(s[i]);
      }
    }
    assert s[..|s|] == s;
  }

  /** The characters of `s`, unchanged: what the fast path hands back. */
  function Verbatim(s: Bytes): string {
    seq(|s|, i requires 0 <= i < |s| => s[i] as char)
  }

  lemma {:induction false} SafeBytesPrintVerbatim(s: Bytes, keepColon: bool)
    requires forall i :: 0 <= i < |s| ==> Print(s[i], keepColon) == [s[i] as char]
    ensures PrintAll(s, keepColon) == Verbatim(s)
  {
    if s != [] {
      SafeBytesPrintVerbatim(s[1..], keepColon);
      assert Verbatim(s) == [s[0] as char] + Verbatim(s[1..]);
    }
  }

  /** `ack::percent_encode_signature_segment`. `borrowed` says that the zero-copy path answered; that path
      returns the input itself, and answers exactly when encoding changes nothing. */
  method PercentEncodeSignatureSegment(s: Bytes) returns (out: string, borrowed: bool)
    ensures out == PrintAll(s, true)
    ensures borrowed <==> PrintAll(s, true) == Verbatim(s)
  {
    var safe := true;
    var i := 0;
    while i < |s| && safe
      invariant i <= |s|
      invariant safe ==> forall j :: 0 <= j < i ==> SegmentSafe(s[j])
      invariant !safe ==> exists j :: 0 <= j < |s| && !SegmentSafe(s[j])
    {
      safe := SegmentSafe(s[i]);
      i := i + 1;
    }
    borrowed := safe;
    if safe {
      SafeBytesPrintVerbatim(s, true);
      return Verbatim(s), true;
    }
    EscapesLengthen(s, true);
    out := "";
    for k := 0 to |s|
      invariant out == PrintAll(s[..k], true)
    {
      PrintAllAppends(s[..k], s[k], true);
      assert s[..k + 1] == s[..k] + [s[k]];
      out := out + if SegmentSafe(s[k]) then [s[k] as char] else Escape(s[k]);
    }
    assert s[..|s|] == s;
  }

  lemma {:induction false} EscapesLengthen(s: Bytes, keepColon: bool)
    ensures |PrintAll(s, keepColon)| >= |s|
    ensures (exists i :: 0 <= i < |s| && |Print(s[i], keepColon)| > 1) ==> |PrintAll(s, keepColon)| > |s|
  {
    if s != [] {
      EscapesLengthen(s[1..], keepColon);
      if i :| 0 <= i < |s| && |Print(s[i], keepColon)| > 1 {
        if i > 0 { assert s[1..][i - 1] == s[i]; }
      }
    }
  }

  // ----- the parser

  function HexValue(c: char): Option<nat> {
    if '0' <= c <= '9' then Some(c as nat - '0' as nat)
    else if 'A' <= c <= 'F' then Some(c as nat - 'A' as nat + 10)
    else if 'a' <= c <= 'f' then Some(c as nat - 'a' as nat + 10)
    else None
  }

  /** Percent-decoding: any `%` must start an escape, any other character stands for itself. */
  function Decode(t: string): Option<Bytes> {
    if t == "" then Some([])
    else if t[0] == '%' then
      if |t| < 3 then None
      else
        match (HexValue(t[1]), HexValue(t[2]), Decode(t[3..]))
        case (Some(high), Some(low), Some(rest)) =>
          if high < 16 && low < 16 then Some([(16 * high + low) as Byte] + rest) else None
        case _ => None
    else if t[0] as int >= 256 then None
    else
      match Decode(t[1..])
      case Some(rest) => Some([t[0] as int as Byte] + rest)
      case None => None
  }

  lemma DecodeOnePrinted(b: Byte, keepColon: bool, t: string)
    ensures Decode(Print(b, keepColon) + t)
         == match Decode(t) case Some(rest) => Some([b] + rest) case None => None
  {
    var p := Print(b, keepColon);
    assert (p + t)[|p|..] == t;
    if |p| == 3 {
      assert HexValue(p[1]) == Some(b / 16) && HexValue(p[2]) == Some(b % 16);
    } else {
      assert p == [b as char] && b != '%' as int;
    }
  }

  /** Decoding undoes either encoder, on every byte string. */
  lemma {:induction false} DecodeEncode(s: Bytes, keepColon: bool)
    ensures Decode(PrintAll(s, keepColon)) == Some(s)
  {
    if s != [] {
      DecodeEncode(s[1..], keepColon);
      DecodeOnePrinted(s[0], keepColon, PrintAll(s[1..], keepColon));
      assert [s[0]] + s[1..] == s;
    }
  }

  /** Both encoders are injective, also against each other. */
  lemma {:induction false} EncodeInjective(s: Bytes, t: Bytes, keepColonS: bool, keepColonT: bool)
    requires PrintAll(s, keepColonS) == PrintAll(t, keepColonT)
    ensures s == t
  {
    DecodeEncode(s, keepColonS);
    DecodeEncode(t, keepColonT);
  }

  /** The two encoders agree on a value exactly when it holds no `:`. */
  lemma {:induction false} EncodersDifferOnColonOnly(s: Bytes)
    ensures PrintAll(s, false) == PrintAll(s, true) <==> ':' as int !in s
  {
    if s != [] {
      EncodersDifferOnColonOnly(s[1..]);
      var p, q := PrintAll(s, false), PrintAll(s, true);
      if s[0] == ':' as int {
        assert p[0] == '%' && q[0] == ':';
      } else {
        var n := |Print(s[0], true)|;
        assert Print(s[0], false) == Print(s[0], true);
        assert p[n..] == PrintAll(s[1..], false) && q[n..] == PrintAll(s[1..], true);
      }
    }
  }

  /** What an encoded value can be made of: nothing that ends a parameter, a path segment or a query. */
  predicate Slotted(c: char) {
    c == '%' || (c as int < 256 && SegmentSafe(c as int))
  }

  lemma {:induction false} EncodedStaysInItsSlot(s: Bytes, keepColon: bool, i: nat)
    requires i < |PrintAll(s, keepColon)|
    ensures Slotted(PrintAll(s, keepColon)[i]) && PrintAll(s, keepColon)[i] !in "&=?/# "
  {
    var n := |Print(s[0], keepColon)|;
    if i >= n {
      EncodedStaysInItsSlot(s[1..], keepColon, i - n);
    } else {
      assert PrintAll(s, keepColon)[i] == Print(s[0], keepColon)[i];
      assert forall h: nat :: h < 16 ==> Slotted(HexDigit(h)) && HexDigit(h) !in "&=?/# ";
    }
  }

  // ----- paths

  datatype Param = Param(key: string, value: Bytes)

  /** `k=encode(v)`. */
  function Pair(p: Param, keepColon: bool): string {
    p.key + "=" + PrintAll(p.value, keepColon)
  }

  function Pairs(params: seq<Param>, keepColon: bool): seq<string> {
    seq(|params|, i requires 0 <= i < |params| => Pair(params[i], keepColon))
  }

  /** The body of a form POST, and the query of a path. */
  function Query(params: seq<Param>, keepColon: bool): string {
    Join(Pairs(params, keepColon), '&')
  }

  /** The parameters that are set, in the order given. */
  function Present(params: seq<(string, Option<Bytes>)>): seq<Param> {
    if params == [] then []
    else (if params[0].1.Some? then [Param(params[0].0, params[0].1.value)] else []) + Present(params[1..])
  }

  /** `hub::with_query`. */
  function WithQuery(path: string, params: seq<(string, Option<Bytes>)>): string {
    path + "?" + Query(Present(params), false)
  }

  function Digits(n: nat): string {
    if n < 10 then [('0' as int + n) as char] else Digits(n / 10) + [('0' as int + n % 10) as char]
  }

  function AsBytes(t: string): Bytes
    requires forall i :: 0 <= i < |t| ==> t[i] as int < 256
  {
    seq(|t|, i requires 0 <= i < |t| && t[i] as int < 256 => t[i] as int as Byte)
  }

  // A number is printed without encoding.
  function Raw(key: string, n: nat): string { key + "=" + Digits(n) }

  // ----- reading a path back

  function ParsePair(t: string): Option<Param> {
    match SplitOnce(t, '=')
    case Some((key, value)) =>
      (match Decode(value)
       case Some(v) => Some(Param(key, v))
       case None => None)
    case None => None
  }

  function ParsePairs(parts: seq<string>): Option<seq<Param>> {
    if parts == [] then Some([])
    else
      match (ParsePair(parts[0]), ParsePairs(parts[1..]))
      case (Some(p), Some(rest)) => Some([p] + rest)
      case _ => None
  }

  function ParseQuery(t: string): Option<seq<Param>> {
    if t == "" then Some([]) else ParsePairs(Split(t, '&'))
  }

  /** A whole path: the route, then its parameters. */
  function ParsePath(t: string): Option<(string, seq<Param>)> {
    match SplitOnce(t, '?')
    case Some((route, query)) =>
      (match ParseQuery(query)
       case Some(params) => Some((route, params))
       case None => None)
    case None => None
  }

  predicate PlainKey(key: string) {
    key != "" && '=' !in key && '&' !in key && '?' !in key
  }

  lemma PairReadsBack(p: Param, keepColon: bool)
    requires PlainKey(p.key)
    ensures ParsePair(Pair(p, keepColon)) == Some(p)
    ensures '&' !in Pair(p, keepColon)
  {
    SplitOnceAt(p.key, '=', PrintAll(p.value, keepColon));
    DecodeEncode(p.value, keepColon);
    forall i | 0 <= i < |PrintAll(p.value, keepColon)|
      ensures PrintAll(p.value, keepColon)[i] != '&'
    {
      EncodedStaysInItsSlot(p.value, keepColon, i);
    }
  }

  lemma {:induction false} PairsReadBack(params: seq<Param>, keepColon: bool)
    requires forall i :: 0 <= i < |params| ==> PlainKey(params[i].key)
    ensures ParsePairs(Pairs(params, keepColon)) == Some(params)
    ensures forall i :: 0 <= i < |params| ==> '&' !in Pairs(params, keepColon)[i]
  {
    if params != [] {
      PairReadsBack(params[0], keepColon);
      PairsReadBack(params[1..], keepColon);
      assert Pairs(params, keepColon)[1..] == Pairs(params[1..], keepColon);
      assert [params[0]] + params[1..] == params;
      assert forall i :: 0 < i < |params| ==> Pairs(params, keepColon)[i] == Pairs(params[1..], keepColon)[i - 1];
    }
  }

  /** A query or form body reads back as exactly the parameters it was built from, in order, whatever bytes
      their values hold. */
  lemma {:induction false} QueryReadsBack(params: seq<Param>, keepColon: bool)
    requires forall i :: 0 <= i < |params| ==> PlainKey(params[i].key)
    ensures ParseQuery(Query(params, keepColon)) == Some(params)
  {
    if params != [] {
      PairsReadBack(params, keepColon);
      SplitJoin(Pairs(params, keepColon), '&');
      assert |Pairs(params, keepColon)[0]| > 0;
    }
  }

  /** A parameter that is set is kept as it is, one that is not is dropped, and the order stays. */
  lemma {:induction false} PresentIsExact(params: seq<(string, Option<Bytes>)>, key: string, value: Bytes)
    ensures Present([]) == []
    ensures Present([(key, Some(value))] + params) == [Param(key, value)] + Present(params)
    ensures Present([(key, None)] + params) == Present(params)
  {
    assert ([(key, Some(value))] + params)[1..] == params;
    assert ([(key, None)] + params)[1..] == params;
  }

  lemma {:induction false} PresentKeys(params: seq<(string, Option<Bytes>)>)
    requires forall i :: 0 <= i < |params| ==> PlainKey(params[i].0)
    ensures forall i :: 0 <= i < |Present(params)| ==> PlainKey(Present(params)[i].key)
  {
    if params != [] {
      PresentKeys(params[1..]);
    }
  }

  /** Hub paths: the route and exactly the parameters that were set. */
  lemma {:induction false} WithQueryReadsBack(path: string, params: seq<(string, Option<Bytes>)>)
    requires '?' !in path
    requires forall i :: 0 <= i < |params| ==> PlainKey(params[i].0)
    ensures ParsePath(WithQuery(path, params)) == Some((path, Present(params)))
  {
    PresentKeys(params);
    QueryReadsBack(Present(params), false);
    SplitOnceAt(path, '?', Query(Present(params), false));
    assert WithQuery(path, params) == path + ['?'] + Query(Present(params), false);
  }

  /** And it is printed by the encoder that leaves no `:`. */
  lemma {:induction false} WithQueryPrints(path: string, key: string, value: Bytes, rest: seq<(string, Option<Bytes>)>)
    ensures WithQuery(path, []) == path + "?"
    ensures WithQuery(path, [(key, Some(value))] + rest)
         == path + "?" + (key + "=" + PrintAll(value, false)
                          + (if Present(rest) == [] then "" else ['&'] + Query(Present(rest), false)))
  {
    PresentIsExact(rest, key, value);
    var more := Present(rest);
    var params := [Param(key, value)] + more;
    assert Pairs(params, false) == [Pair(params[0], false)] + Pairs(more, false);
    if more != [] { assert Pairs(params, false)[1..] == Pairs(more, false); }
  }

  lemma {:induction false} DigitsNeedNoEscape(n: nat)
    ensures forall i :: 0 <= i < |Digits(n)| ==> '0' <= Digits(n)[i] <= '9'
    ensures PrintAll(AsBytes(Digits(n)), true) == Digits(n)
  {
    if n >= 10 {
      DigitsNeedNoEscape(n / 10);
    }
    var d := AsBytes(Digits(n));
    assert forall i :: 0 <= i < |d| ==> Print(d[i], true) == [d[i] as char];
    assert Verbatim(d) == Digits(n);
    SafeBytesPrintVerbatim(d, true);
  }

  /** The number a run of decimal digits denotes. */
  function Number(t: string): nat
    requires forall i :: 0 <= i < |t| ==> '0' <= t[i] <= '9'
  {
    if t == "" then 0 else 10 * Number(t[..|t| - 1]) + (t[|t| - 1] as nat - '0' as nat)
  }

  lemma {:induction false} DigitsDenote(n: nat)
    ensures (forall i :: 0 <= i < |Digits(n)| ==> '0' <= Digits(n)[i] <= '9') && Number(Digits(n)) == n
  {
    DigitsNeedNoEscape(n);
    if n < 10 {
      assert Number(Digits(n)[..0]) == 0;
    } else {
      DigitsDenote(n / 10);
      assert Digits(n)[..|Digits(n)| - 1] == Digits(n / 10);
    }
  }

  function NumberBytes(n: nat): (r: Bytes)
    ensures |r| == |Digits(n)| && forall i :: 0 <= i < |r| ==> r[i] == Digits(n)[i] as int
  {
    DigitsNeedNoEscape(n);
    AsBytes(Digits(n))
  }

  function Limit(key: string, n: nat): Param { Param(key, NumberBytes(n)) }

  function Optional(key: string, value: Option<Bytes>): seq<Param> {
    match value
    case Some(v) => [Param(key, v)]
    case None => []
  }

  ghost predicate AllPlain(params: seq<Param>) {
    forall i :: 0 <= i < |params| ==> PlainKey(params[i].key)
  }

  lemma KeysArePlain()
    ensures PlainKey("limit") && PlainKey("offset") && PlainKey("service")
    ensures PlainKey("type") && PlainKey("severity") && PlainKey("namespace")
  {
  }

  lemma RouteReadsBack(route: string, params: seq<Param>)
    requires '?' !in route && AllPlain(params)
    ensures ParsePath(route + "?" + Query(params, true)) == Some((route, params))
  {
    QueryReadsBack(params, true);
    SplitOnceAt(route, '?', Query(params, true));
    assert route + "?" + Query(params, true) == route + ['?'] + Query(params, true);
  }

  function FindingsParams(limit: nat, service: Option<Bytes>, findingType: Option<Bytes>,
                          severity: Option<Bytes>): seq<Param> {
    [Limit("limit", limit)] + Optional("service", service)
    + Optional("type", findingType) + Optional("severity", severity)
  }

  lemma FindingsParamsReadBack(limit: nat, service: Option<Bytes>, findingType: Option<Bytes>, severity: Option<Bytes>)
    ensures var params := FindingsParams(limit, service, findingType, severity);
            ParsePath("/api/findings" + "?" + Query(params, true)) == Some(("/api/findings", params))
  {
    assert AllPlain(FindingsParams(limit, service, findingType, severity)) by {
      KeysArePlain();
      assert AllPlain([Limit("limit", limit)]) && AllPlain(Optional("service", service));
    }
    RouteReadsBack("/api/findings", FindingsParams(limit, service, findingType, severity));
  }

  /** What an option adds to a query that is not empty. */
  function Slot(key: string, value: Option<Bytes>): string {
    match value
    case Some(v) => ['&'] + (key + "=" + PrintAll(v, true))
    case None => ""
  }

  /** `query::build_findings_path`: the limit is printed raw, every other value is encoded. The path reads
      back as exactly the parameters given, so no value leaves its slot. */
  method BuildFindingsPath(limit: nat, service: Option<Bytes>, findingType: Option<Bytes>, severity: Option<Bytes>)
    returns (path: string)
    ensures path == "/api/findings" + "?"
                  + (Raw("limit", limit) + Slot("service", service)
                     + Slot("type", findingType) + Slot("severity", severity))
    ensures ParsePath(path) == Some(("/api/findings", FindingsParams(limit, service, findingType, severity)))
  {
    ghost var read := [Limit("limit", limit)];
    var params := [Raw("limit", limit)];
    DigitsNeedNoEscape(limit);
    assert params == Pairs(read, true);
    params := PushOptional(params, "service", service, read);
    read := read + Optional("service", service);
    params := PushOptional(params, "type", findingType, read);
    read := read + Optional("type", findingType);
    params := PushOptional(params, "severity", severity, read);
    FindingsParamsReadBack(limit, service, findingType, severity);
    path := "/api/findings" + "?" + Join(params, '&');
  }

  lemma PairsAppend(read: seq<Param>, p: Param)
    ensures Pairs(read + [p], true) == Pairs(read, true) + [Pair(p, true)]
  {
  }

  /** Pushes `key=value` when the option is set. */
  method PushOptional(params: seq<string>, key: string, value: Option<Bytes>, ghost read: seq<Param>)
    returns (longer: seq<string>)
    requires params == Pairs(read, true) && params != []
    ensures longer == Pairs(read + Optional(key, value), true) && longer != []
    ensures Join(longer, '&') == Join(params, '&') + Slot(key, value)
  {
    longer := params;
    match value {
      case None => assert read + [] == read;
      case Some(v) =>
        var encoded, _ := PercentEncodeSignatureSegment(v);
        var pair := key + "=" + encoded;
        JoinAppends(params, pair, '&');
        PairsAppend(read, Param(key, v));
        longer := longer + [pair];
    }
  }

  function IncidentsParams(offset: nat, limit: nat, service: Option<Bytes>, namespace: Option<Bytes>): seq<Param> {
    [Limit("offset", offset), Limit("limit", limit)] + Optional("service", service) + Optional("namespace", namespace)
  }

  lemma IncidentsParamsReadBack(offset: nat, limit: nat, service: Option<Bytes>, namespace: Option<Bytes>)
    ensures var params := IncidentsParams(offset, limit, service, namespace);
            ParsePath("/api/incidents" + "?" + Query(params, true)) == Some(("/api/incidents", params))
  {
    assert AllPlain(IncidentsParams(offset, limit, service, namespace)) by {
      KeysArePlain();
      assert AllPlain([Limit("offset", offset), Limit("limit", limit)]);
    }
    RouteReadsBack("/api/incidents", IncidentsParams(offset, limit, service, namespace));
  }

  /** `query::build_incidents_path`. */
  method BuildIncidentsPath(offset: nat, limit: nat, service: Option<Bytes>, namespace: Option<Bytes>)
    returns (path: string)
    ensures path == "/api/incidents" + "?"
                  + (Raw("offset", offset) + ['&'] + Raw("limit", limit)
                     + Slot("service", service) + Slot("namespace", namespace))
    ensures ParsePath(path) == Some(("/api/incidents", IncidentsParams(offset, limit, service, namespace)))
  {
    ghost var read := [Limit("offset", offset), Limit("limit", limit)];
    var params := [Raw("offset", offset), Raw("limit", limit)];
    DigitsNeedNoEscape(offset);
    DigitsNeedNoEscape(limit);
    assert params == Pairs(read, true);
    assert Join(params, '&') == Raw("offset", offset) + ['&'] + Raw("limit", limit);
    params := PushOptional(params, "service", service, read);
    read := read + Optional("service", service);
    params := PushOptional(params, "namespace", namespace, read);
    IncidentsParamsReadBack(offset, limit, service, namespace);
    path := "/api/incidents" + "?" + Join(params, '&');
  }

  /** A value used as one path segment is one segment between slashes: `/api/incidents/{id}`,
      `/api/sources/{id}/acks`. */
  lemma {:induction false} SegmentReadsBack(before: seq<string>, id: Bytes, after: seq<string>)
    requires forall i :: 0 <= i < |before| ==> '/' !in before[i]
    requires forall i :: 0 <= i < |after| ==> '/' !in after[i]
    ensures var parts := Split(Join(before + [PrintAll(id, false)] + after, '/'), '/');
            && |parts| == |before| + 1 + |after|
            && Decode(parts[|before|]) == Some(id)
            && parts[..|before|] == before && parts[|before| + 1..] == after
  {
    forall i | 0 <= i < |PrintAll(id, false)| ensures PrintAll(id, false)[i] != '/' {
      EncodedStaysInItsSlot(id, false, i);
    }
    SplitJoin(before + [PrintAll(id, false)] + after, '/');
    DecodeEncode(id, false);
  }

  // ----- dot segments: section 5.2.4 of RFC 3986

  predicate DotSegment(t: string) { t == "." || t == ".." }

  predicate NoDots(segments: seq<string>) {
    forall i :: 0 <= i < |segments| ==> !DotSegment(segments[i])
  }

  /** What a reader that removes dot segments makes of `done + rest`. The root is never left, and a path that
      ends in a dot segment ends in a slash. */
  function RemoveDots(done: seq<string>, rest: seq<string>): seq<string>
    decreases |rest|
  {
    if rest == [] then done
    else if !DotSegment(rest[0]) then RemoveDots(done + [rest[0]], rest[1..])
    else
      var kept := if rest[0] == ".." && |done| > 1 then done[..|done| - 1] else done;
      RemoveDots(if |rest| == 1 then kept + [""] else kept, rest[1..])
  }

  lemma {:induction false} DotsGone(done: seq<string>, rest: seq<string>)
    requires NoDots(done)
    ensures NoDots(RemoveDots(done, rest))
    ensures NoDots(rest) ==> RemoveDots(done, rest) == done + rest
    decreases |rest|
  {
    if rest == [] {
      assert done + rest == done;
    } else if !DotSegment(rest[0]) {
      DotsGone(done + [rest[0]], rest[1..]);
      assert (done + [rest[0]]) + rest[1..] == done + rest;
    } else {
      var kept := if rest[0] == ".." && |done| > 1 then done[..|done| - 1] else done;
      DotsGone(if |rest| == 1 then kept + [""] else kept, rest[1..]);
    }
  }

  lemma {:induction false} PrintsADotSegmentIff(id: Bytes)
    ensures DotSegment(PrintAll(id, false)) <==> id == ['.' as int] || id == ['.' as int, '.' as int]
  {
    var one: Bytes, two: Bytes := ['.' as int], ['.' as int, '.' as int];
    assert two[1..] == one && one[1..] == [];
    assert PrintAll(one, false) == "." && PrintAll(two, false) == "..";
    if PrintAll(id, false) == "." { EncodeInjective(id, one, false, false); }
    if PrintAll(id, false) == ".." { EncodeInjective(id, two, false, false); }
  }

  /** Both encoders leave dots alone, so a path with an encoded id in it survives a reader that removes dot
      segments exactly when the id is neither `.` nor `..`. */
  lemma {:induction false} SegmentSurvivesIff(before: seq<string>, id: Bytes, after: seq<string>)
    requires NoDots(before) && NoDots(after)
    ensures var path := before + [PrintAll(id, false)] + after;
            RemoveDots([], path) == path <==> id != ['.' as int] && id != ['.' as int, '.' as int]
  {
    var path := before + [PrintAll(id, false)] + after;
    PrintsADotSegmentIff(id);
    DotsGone([], path);
    assert [] + path == path;
    assert path[|before|] == PrintAll(id, false);
  }
}
