/** Splitting and joining text at a separator, as the standard library of the source does. */
module Text {
  import opened Wrappers

  function Join(parts: seq<string>, sep: char): string {
    if parts == [] then ""
    else if |parts| == 1 then parts[0]
    else parts[0] + [sep] + Join(parts[1..], sep)
  }

  /** Splits at every `sep`, like `str::split`. */
  function Split(t: string, sep: char): (parts: seq<string>)
    ensures parts != []
  {
    if t == "" then [""]
    else if t[0] == sep then [""] + Split(t[1..], sep)
    else var rest := Split(t[1..], sep); [[t[0]] + rest[0]] + rest[1..]
  }

  /** Splits at the first `sep`, like `str::split_once`. */
  function SplitOnce(t: string, sep: char): Option<(string, string)> {
    if t == "" then None
    else if t[0] == sep then Some(("", t[1..]))
    else
      match SplitOnce(t[1..], sep)
      case Some((before, after)) => Some(([t[0]] + before, after))
      case None => None
  }

  lemma {:induction false} SplitOnceAt(a: string, sep: char, b: string)
    requires sep !in a
    ensures SplitOnce(a + [sep] + b, sep) == Some((a, b))
  {
    var t := a + [sep] + b;
    if a == "" {
      assert t[1..] == b;
    } else {
      assert t[1..] == a[1..] + [sep] + b;
      SplitOnceAt(a[1..], sep, b);
      assert [a[0]] + a[1..] == a;
    }
  }

  lemma {:induction false} SplitAfterPart(a: string, sep: char, b: string)
    requires sep !in a
    ensures Split(a + [sep] + b, sep) == [a] + Split(b, sep)
  {
    var t := a + [sep] + b;
    if a == "" {
      assert t[1..] == b;
    } else {
      assert t[1..] == a[1..] + [sep] + b;
      SplitAfterPart(a[1..], sep, b);
      assert [a[0]] + a[1..] == a;
    }
  }

  lemma {:induction false} SplitOfNoSeparator(a: string, sep: char)
    requires sep !in a
    ensures Split(a, sep) == [a]
  {
    if a != "" {
      SplitOfNoSeparator(a[1..], sep);
      assert [a[0]] + a[1..] == a;
    }
  }

  /** Splitting undoes joining. */
  lemma {:induction false} SplitJoin(parts: seq<string>, sep: char)
    requires parts != [] && forall i :: 0 <= i < |parts| ==> sep !in parts[i]
    ensures Split(Join(parts, sep), sep) == parts
  {
    if |parts| == 1 {
      SplitOfNoSeparator(parts[0], sep);
    } else {
      SplitJoin(parts[1..], sep);
      SplitAfterPart(parts[0], sep, Join(parts[1..], sep));
    }
  }

  /** Joining undoes splitting. */
  lemma {:induction false} JoinSplit(t: string, sep: char)
    ensures Join(Split(t, sep), sep) == t
  {
    if t != "" {
      JoinSplit(t[1..], sep);
      var rest := Split(t[1..], sep);
      assert [t[0]] + t[1..] == t;
      if t[0] == sep {
        assert ([""] + rest)[1..] == rest;
      } else if |rest| > 1 {
        assert ([[t[0]] + rest[0]] + rest[1..])[1..] == rest[1..];
      }
    }
  }

  lemma {:induction false} SplitOnceSound(t: string, sep: char)
    ensures match SplitOnce(t, sep)
            case Some((before, after)) => t == before + [sep] + after && sep !in before
            case None => sep !in t
  {
    if t != "" {
      assert [t[0]] + t[1..] == t;
      if t[0] != sep {
        SplitOnceSound(t[1..], sep);
      }
    }
  }

  lemma {:induction false} JoinAppends(parts: seq<string>, last: string, sep: char)
    requires parts != []
    ensures Join(parts + [last], sep) == Join(parts, sep) + [sep] + last
  {
    if |parts| > 1 {
      JoinAppends(parts[1..], last, sep);
      assert (parts + [last])[1..] == parts[1..] + [last];
    } else {
      assert (parts + [last])[1..] == [last];
    }
  }
}
