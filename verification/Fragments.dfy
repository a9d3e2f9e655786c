/** Loading `.perf-sentinel.toml` and its numbered fragments (crates/sentinel-cli/src/config_load.rs). */
module Fragments {
  import opened Permutations
  import opened Sorting
  import opened Text
  import opened Wrappers

  /** One directory entry, in whatever order the system lists them. */
  datatype Entry =
    | Named(name: string)
    | NotUtf8(toml: bool)  // a name that is no text, and whether its extension is `toml`
    | Unreadable           // the listing itself failed here

  datatype Listing = NoDirectory | ListingFailed | Listed(entries: seq<Entry>)

  /** What reading the main file gives. `Dangling`: not found, yet something sits at the path. */
  datatype MainFile = Content(text: string) | NotFound | Dangling | Uninspectable | ReadFailed

  datatype Fragment = Fragment(priority: nat, name: string)

  datatype Document = Document(name: string, text: string)

  datatype Error =
    | ReadDirectory | ReadEntry | NotUtf8Name | BadName(name: string)
    | DuplicatePriority(priority: nat, first: string, second: string)
    | ReadFragment(name: string) | ReadMain | InspectMain

  const EXTENSION := ".toml"

  /** `Path::extension` is `toml`: a name that is nothing but the extension has none. */
  predicate HasTomlExtension(name: string) {
    |name| > |EXTENSION| && name[|name| - |EXTENSION|..] == EXTENSION
  }

  predicate Digit(c: char) { '0' <= c <= '9' }

  predicate LowerOrDigit(c: char) { 'a' <= c <= 'z' || Digit(c) }

  predicate SlugRefused(slug: string) {
    || slug == ""
    || slug[0] == '-'
    || slug[|slug| - 1] == '-'
    || (exists i :: 0 <= i < |slug| - 1 && slug[i] == '-' && slug[i + 1] == '-')
    || (exists i :: 0 <= i < |slug| && !LowerOrDigit(slug[i]) && slug[i] != '-')
  }

  function FragmentPriority(name: string): Option<nat> {
    if !(|name| >= |EXTENSION| && name[|name| - |EXTENSION|..] == EXTENSION) then None
    else
      match SplitOnce(name[..|name| - |EXTENSION|], '-')
      case None => None
      case Some((priority, slug)) =>
        if |priority| != 2 || !Digit(priority[0]) || !Digit(priority[1]) || SlugRefused(slug) then None
        else Some(10 * (priority[0] as nat - '0' as nat) + (priority[1] as nat - '0' as nat))
  }

  // ----- the grammar of a fragment name: two digits, `-`, words joined by `-`, `.toml`

  predicate Word(w: string) {
    w != "" && forall i :: 0 <= i < |w| ==> 'a' <= w[i] <= 'z' || '0' <= w[i] <= '9'
  }

  predicate Words(words: seq<string>) {
    words != [] && forall i :: 0 <= i < |words| ==> Word(words[i])
  }

  function FragmentName(tens: char, units: char, words: seq<string>): string {
    [tens, units] + "-" + Join(words, '-') + EXTENSION
  }

  ghost predicate InGrammar(name: string) {
    exists tens, units, words ::
      '0' <= tens <= '9' && '0' <= units <= '9' && Words(words) && name == FragmentName(tens, units, words)
  }

  lemma {:induction false} SlugSplitsIntoWords(slug: string)
    requires !SlugRefused(slug)
    ensures Words(Split(slug, '-'))
    decreases |slug|
  {
    var rest := slug[1..];
    assert [slug[0]] + rest == slug;
    if |slug| == 1 {
      assert Split("", '-') == [""];
    } else if slug[1] == '-' {
      var after := slug[2..];
      assert rest == ['-'] + after;
      assert slug[2] != '-';
      assert forall i :: 0 <= i < |after| ==> after[i] == slug[i + 2];
      SlugSplitsIntoWords(after);
      assert rest[1..] == after;
      assert Split(rest, '-') == [""] + Split(after, '-');
      assert [slug[0]] + "" == [slug[0]];
      assert Split(slug, '-') == [[slug[0]]] + Split(after, '-');
    } else {
      assert forall i :: 0 <= i < |rest| ==> rest[i] == slug[i + 1];
      SlugSplitsIntoWords(rest);
    }
  }

  lemma {:induction false} WordsMakeASlug(words: seq<string>)
    requires Words(words)
    ensures !SlugRefused(Join(words, '-'))
  {
    var slug := Join(words, '-');
    if |words| > 1 {
      var rest := Join(words[1..], '-');
      WordsMakeASlug(words[1..]);
      assert slug == words[0] + ['-'] + rest;
      var n := |words[0]|;
      assert slug[n] == '-' && slug[n + 1..] == rest;
      forall i | 0 <= i < |slug|
        ensures i < n ==> slug[i] == words[0][i]
        ensures i > n ==> slug[i] == rest[i - n - 1]
      {
      }
      assert slug[|slug| - 1] == rest[|rest| - 1];
    } else {
      assert slug == words[0];
    }
  }

  /** The hand-written checks accept exactly the grammar, and read the two digits. */
  lemma {:induction false} PriorityIffGrammar(name: string)
    ensures FragmentPriority(name).Some? <==> InGrammar(name)
    ensures FragmentPriority(name).Some? ==> HasTomlExtension(name) && FragmentPriority(name).value < 100
  {
    if FragmentPriority(name).Some? {
      var stem := name[..|name| - |EXTENSION|];
      SplitOnceSound(stem, '-');
      var (priority, slug) := SplitOnce(stem, '-').value;
      SlugSplitsIntoWords(slug);
      JoinSplit(slug, '-');
      assert priority == [priority[0], priority[1]];
      assert name == stem + EXTENSION;
      assert name == FragmentName(priority[0], priority[1], Split(slug, '-'));
    }
    if tens, units, words :|
      '0' <= tens <= '9' && '0' <= units <= '9' && Words(words) && name == FragmentName(tens, units, words)
    {
      GrammarHasPriority(tens, units, words);
    }
  }

  lemma {:induction false} GrammarHasPriority(tens: char, units: char, words: seq<string>)
    requires '0' <= tens <= '9' && '0' <= units <= '9' && Words(words)
    ensures FragmentPriority(FragmentName(tens, units, words))
         == Some(10 * (tens as nat - '0' as nat) + (units as nat - '0' as nat))
  {
    var name, slug := FragmentName(tens, units, words), Join(words, '-');
    var stem := name[..|name| - |EXTENSION|];
    assert stem == [tens, units] + ['-'] + slug;
    SplitOnceAt([tens, units], '-', slug);
    WordsMakeASlug(words);
  }

  // ----- the loader

  predicate FragmentLe(a: Fragment, b: Fragment) {
    a.priority < b.priority || (a.priority == b.priority && StringLe(a.name, b.name))
  }

  /** The entries the loop keeps, or the first one it refuses. */
  function Collect(entries: seq<Entry>): Result<seq<Fragment>, Error> {
    if entries == [] then Ok([])
    else
      match Verdict(entries[0])
      case Err(e) => Err(e)
      case Ok(kept) =>
        (match Collect(entries[1..])
         case Err(e) => Err(e)
         case Ok(rest) => Ok((if kept.Some? then [kept.value] else []) + rest))
  }

  function Verdict(entry: Entry): Result<Option<Fragment>, Error> {
    match entry
    case Unreadable => Err(ReadEntry)
    case NotUtf8(toml) => if toml then Err(NotUtf8Name) else Ok(None)
    case Named(name) =>
      if !HasTomlExtension(name) then Ok(None)
      else match FragmentPriority(name)
        case None => Err(BadName(name))
        case Some(priority) => Ok(Some(Fragment(priority, name)))
  }

  /** The first adjacent pair of equal priorities. */
  function FirstDuplicate(sorted: seq<Fragment>): Option<Error> {
    if |sorted| < 2 then None
    else if sorted[0].priority == sorted[1].priority then
      Some(DuplicatePriority(sorted[0].priority, sorted[0].name, sorted[1].name))
    else FirstDuplicate(sorted[1..])
  }

  /** The fragments to read, in order: the directory's part of the verdict. */
  function Scan(entries: seq<Entry>): Result<seq<Fragment>, Error> {
    match Collect(entries)
    case Err(e) => Err(e)
    case Ok(found) =>
      var sorted := Sort(FragmentLe, found);
      match FirstDuplicate(sorted)
      case Some(e) => Err(e)
      case None => Ok(sorted)
  }

  function ReadAll(fragments: seq<Fragment>, read: string -> Option<string>): Result<seq<Document>, Error> {
    if fragments == [] then Ok([])
    else match read(fragments[0].name)
      case None => Err(ReadFragment(fragments[0].name))
      case Some(text) =>
        (match ReadAll(fragments[1..], read)
         case Err(e) => Err(e)
         case Ok(rest) => Ok([Document(fragments[0].name, text)] + rest))
  }

  function MainDocument(main: MainFile, path: string, requireMain: bool): Result<seq<Document>, Error> {
    match main
    case Content(text) => Ok([Document(path, text)])
    case NotFound => if requireMain then Err(ReadMain) else Ok([])
    case Dangling => Err(ReadMain)
    case Uninspectable => if requireMain then Err(ReadMain) else Err(InspectMain)
    case ReadFailed => Err(ReadMain)
  }

  function FlagsDocument(flags: Option<string>): seq<Document> {
    match flags case Some(text) => [Document("command-line flags", text)] case None => []
  }

  function LoadScanned(scanned: Result<seq<Fragment>, Error>, read: string -> Option<string>,
                       main: MainFile, path: string, requireMain: bool,
                       flags: Option<string>): Result<seq<Document>, Error> {
    match scanned
    case Err(e) => Err(e)
    case Ok(fragments) =>
      match ReadAll(fragments, read)
      case Err(e) => Err(e)
      case Ok(documents) =>
        match MainDocument(main, path, requireMain)
        case Err(e) => Err(e)
        case Ok(mains) => Ok(documents + mains + FlagsDocument(flags))
  }

  function ScanListing(listing: Listing): Result<seq<Fragment>, Error> {
    match listing
    case NoDirectory => Ok([])
    case ListingFailed => Err(ReadDirectory)
    case Listed(entries) => Scan(entries)
  }

  /** A loop that has produced `done` and has `rest` to come. */
  ghost predicate Continues<T>(whole: Result<seq<T>, Error>, done: seq<T>, rest: Result<seq<T>, Error>) {
    && whole.Ok? == rest.Ok?
    && (whole.Err? ==> whole.error == rest.error)
    && (whole.Ok? ==> whole.value == done + rest.value)
  }

  /** The documents handed to the parser, later ones overriding earlier ones. */
  method LoadConfigFiles(listing: Listing, read: string -> Option<string>, main: MainFile, path: string,
                         requireMain: bool, flags: Option<string>)
    returns (loaded: Result<seq<Document>, Error>)
    ensures loaded == LoadScanned(ScanListing(listing), read, main, path, requireMain, flags)
  {
    var fragments: seq<Fragment> := [];
    match listing {
      case NoDirectory =>
      case ListingFailed => return Err(ReadDirectory);
      case Listed(entries) =>
        var found := ScanDirectory(entries);
        if found.Err? { return Err(found.error); }
        fragments := found.value;
    }
    var contents := ReadFragments(fragments, read);
    if contents.Err? { return Err(contents.error); }
    var documents := contents.value;
    match main {
      case Content(text) => documents := documents + [Document(path, text)];
      case NotFound => if requireMain { return Err(ReadMain); }
      case Dangling => return Err(ReadMain);
      case Uninspectable => return Err(if requireMain then ReadMain else InspectMain);
      case ReadFailed => return Err(ReadMain);
    }
    match flags {
      case Some(text) => documents := documents + [Document("command-line flags", text)];
      case None =>
    }
    ghost var spec := LoadScanned(ScanListing(listing), read, main, path, requireMain, flags);
    assert spec.Ok? && spec.value == documents;
    return Ok(documents);
  }

  method ReadFragments(fragments: seq<Fragment>, read: string -> Option<string>)
    returns (all: Result<seq<Document>, Error>)
    ensures all == ReadAll(fragments, read)
  {
    var documents: seq<Document> := [];
    assert fragments[0..] == fragments;
    for i := 0 to |fragments|
      invariant Continues(ReadAll(fragments, read), documents, ReadAll(fragments[i..], read))
    {
      assert fragments[i..][1..] == fragments[i + 1..];
      match read(fragments[i].name) {
        case None => return Err(ReadFragment(fragments[i].name));
        case Some(text) => documents := documents + [Document(fragments[i].name, text)];
      }
    }
    assert ReadAll(fragments, read).value == documents;
    return Ok(documents);
  }

  /** Keeps the `.toml` entries, sorts them and compares each with its neighbour. */
  method ScanDirectory(entries: seq<Entry>) returns (found: Result<seq<Fragment>, Error>)
    ensures found == Scan(entries)
  {
    var fragments: seq<Fragment> := [];
    assert entries[0..] == entries;
    for i := 0 to |entries|
      invariant Continues(Collect(entries), fragments, Collect(entries[i..]))
    {
      assert entries[i..][1..] == entries[i + 1..];
      match entries[i] {
        case Unreadable => return Err(ReadEntry);
        case NotUtf8(toml) => if toml { return Err(NotUtf8Name); }
        case Named(name) =>
          if HasTomlExtension(name) {
            match FragmentPriority(name) {
              case None => return Err(BadName(name));
              case Some(priority) =>
                fragments := fragments + [Fragment(priority, name)];
            }
          }
      }
    }
    assert Collect(entries).Ok? && Collect(entries).value == fragments;
    fragments := Sort(FragmentLe, fragments);
    assert fragments[0..] == fragments;
    var i := 0;
    while i + 1 < |fragments|
      invariant i <= |fragments|
      invariant FirstDuplicate(fragments) == FirstDuplicate(fragments[i..])
    {
      assert fragments[i..][1..] == fragments[i + 1..];
      if fragments[i].priority == fragments[i + 1].priority {
        return Err(DuplicatePriority(fragments[i].priority, fragments[i].name, fragments[i + 1].name));
      }
      i := i + 1;
    }
    return Ok(fragments);
  }

  // ----- what the verdict means

  lemma FragmentsAreOrdered()
    ensures TotalOrder(FragmentLe)
  {
    StringsAreOrdered();
  }

  function PriorityOf(f: Fragment): nat { f.priority }

  ghost predicate DistinctPriorities(s: seq<Fragment>) {
    DistinctBy(PriorityOf, s)
  }

  ghost predicate StrictlyIncreasing(s: seq<Fragment>) {
    forall i, j :: 0 <= i < j < |s| ==> s[i].priority < s[j].priority
  }

  /** In a sorted list, comparing neighbours finds a repeated priority wherever it is. */
  lemma {:induction false} NeighboursSuffice(s: seq<Fragment>)
    requires SortedBy(FragmentLe, s)
    ensures FirstDuplicate(s).None? <==> DistinctPriorities(s)
    ensures FirstDuplicate(s).None? ==> StrictlyIncreasing(s)
  {
    if |s| >= 2 {
      NeighboursSuffice(s[1..]);
      if s[0].priority != s[1].priority {
        assert FragmentLe(s[0], s[1]);
        forall j | 0 < j < |s| ensures s[0].priority < s[j].priority {
          assert FragmentLe(s[0], s[1]) && (j > 1 ==> FragmentLe(s[1], s[j]));
        }
        assert forall i, j :: 0 < i < j < |s| ==> s[i] == s[1..][i - 1] && s[j] == s[1..][j - 1];
      }
    }
  }

  function Kept(entry: Entry): Option<Fragment> {
    match Verdict(entry) case Ok(kept) => kept case Err(_) => None
  }

  lemma {:induction false} CollectFilters(entries: seq<Entry>)
    ensures Collect(entries).Ok? <==> forall i :: 0 <= i < |entries| ==> Verdict(entries[i]).Ok?
    ensures Collect(entries).Ok? ==> Collect(entries).value == FilterMap(Kept, entries)
  {
    if entries != [] {
      CollectFilters(entries[1..]);
      assert forall i :: 0 < i < |entries| ==> entries[i] == entries[1..][i - 1];
    }
  }

  /** What the loader refuses in a directory: a `.toml` entry outside the grammar, or two that share a
      priority, wherever they are listed. */
  ghost predicate Acceptable(entry: Entry) {
    match entry
    case Unreadable => false
    case NotUtf8(toml) => !toml
    case Named(name) => |name| > 5 && name[|name| - 5..] == ".toml" ==> InGrammar(name)
  }

  lemma AcceptableIsVerdict(entry: Entry)
    ensures Acceptable(entry) <==> Verdict(entry).Ok?
  {
    if entry.Named? { PriorityIffGrammar(entry.name); }
  }

  /** The `.toml` names of a listing, in its order. */
  function TomlName(entry: Entry): Option<string> {
    match entry
    case Named(name) => if |name| > 5 && name[|name| - 5..] == ".toml" then Some(name) else None
    case _ => None
  }

  function TomlNames(entries: seq<Entry>): seq<string> { FilterMap(TomlName, entries) }

  /** What the first two characters of a name denote. */
  function TwoDigits(name: string): int {
    if |name| < 2 then -1 else 10 * (name[0] as int - '0' as int) + (name[1] as int - '0' as int)
  }

  function NamesOf(fragments: seq<Fragment>): seq<string> {
    seq(|fragments|, i requires 0 <= i < |fragments| => fragments[i].name)
  }

  /** By the two digits they start with, no two alike. */
  ghost predicate NamesAscend(names: seq<string>) {
    forall i, j :: 0 <= i < j < |names| ==> TwoDigits(names[i]) < TwoDigits(names[j])
  }

  lemma KeptIsNamed(entry: Entry)
    requires Verdict(entry).Ok?
    ensures Kept(entry).Some? <==> TomlName(entry).Some?
    ensures Kept(entry).Some? ==>
              && Kept(entry).value.name == TomlName(entry).value
              && Kept(entry).value.priority == TwoDigits(TomlName(entry).value)
  {
    if entry.Named? && HasTomlExtension(entry.name) {
      PriorityIffGrammar(entry.name);
      var tens, units, words :|
        '0' <= tens <= '9' && '0' <= units <= '9' && Words(words) && entry.name == FragmentName(tens, units, words);
      GrammarHasPriority(tens, units, words);
      assert entry.name[0] == tens && entry.name[1] == units;
    }
  }

  lemma {:induction false} KeptAreNamed(entries: seq<Entry>)
    requires forall i :: 0 <= i < |entries| ==> Verdict(entries[i]).Ok?
    ensures var found := FilterMap(Kept, entries);
            && TomlNames(entries) == NamesOf(found)
            && forall i :: 0 <= i < |found| ==> found[i].priority == TwoDigits(found[i].name)
  {
    if entries != [] {
      KeptIsNamed(entries[0]);
      KeptAreNamed(entries[1..]);
      assert forall i :: 0 <= i < |entries| - 1 ==> entries[1..][i] == entries[i + 1];
      var rest := FilterMap(Kept, entries[1..]);
      if Kept(entries[0]).Some? {
        assert NamesOf([Kept(entries[0]).value] + rest) == [Kept(entries[0]).value.name] + NamesOf(rest);
      }
    }
  }

  lemma {:induction false} NamesPermute(a: seq<Fragment>, b: seq<Fragment>)
    requires multiset(a) == multiset(b)
    ensures multiset(NamesOf(a)) == multiset(NamesOf(b))
    decreases |a|
  {
    if a == [] {
      assert |b| == |multiset(b)| == 0;
    } else {
      var i := Extract(a, b);
      var front, back := b[..i], b[i + 1..];
      NamesPermute(a[1..], front + back);
      assert NamesOf(a) == [a[0].name] + NamesOf(a[1..]);
      assert NamesOf(b) == NamesOf(front) + [a[0].name] + NamesOf(back);
      assert NamesOf(front + back) == NamesOf(front) + NamesOf(back);
    }
  }

  /** A directory, told by its names: it is accepted iff every `.toml` entry is in the grammar and no two start
      with the same two digits; then its `.toml` names are read, each once, by ascending digits. */
  lemma {:induction false} ScanSucceedsIff(entries: seq<Entry>)
    ensures Scan(entries).Ok? <==>
              && (forall i :: 0 <= i < |entries| ==> Acceptable(entries[i]))
              && (forall i, j :: 0 <= i < j < |TomlNames(entries)| ==>
                    TwoDigits(TomlNames(entries)[i]) != TwoDigits(TomlNames(entries)[j]))
    ensures Scan(entries).Ok? ==>
              && NamesAscend(NamesOf(Scan(entries).value))
              && multiset(NamesOf(Scan(entries).value)) == multiset(TomlNames(entries))
  {
    ScanKeepsIff(entries);
    CollectFilters(entries);
    forall i | 0 <= i < |entries| ensures Acceptable(entries[i]) <==> Verdict(entries[i]).Ok? {
      AcceptableIsVerdict(entries[i]);
    }
    if forall i :: 0 <= i < |entries| ==> Acceptable(entries[i]) {
      KeptAreNamed(entries);
      DistinctByDigits(FilterMap(Kept, entries));
      if Scan(entries).Ok? {
        var found, scanned := FilterMap(Kept, entries), Scan(entries).value;
        NamesPermute(scanned, found);
        ScannedAreNumbered(found, scanned);
      }
    }
  }

  lemma DistinctByDigits(found: seq<Fragment>)
    requires forall i :: 0 <= i < |found| ==> found[i].priority == TwoDigits(found[i].name)
    ensures DistinctPriorities(found) <==>
              forall i, j :: 0 <= i < j < |found| ==> TwoDigits(NamesOf(found)[i]) != TwoDigits(NamesOf(found)[j])
  {
    if DistinctPriorities(found) {
      forall i, j | 0 <= i < j < |found| ensures TwoDigits(NamesOf(found)[i]) != TwoDigits(NamesOf(found)[j]) {
        assert PriorityOf(found[i]) != PriorityOf(found[j]);
      }
    }
    if forall i, j :: 0 <= i < j < |found| ==> TwoDigits(NamesOf(found)[i]) != TwoDigits(NamesOf(found)[j]) {
      forall i, j | 0 <= i < j < |found| ensures PriorityOf(found[i]) != PriorityOf(found[j]) {
        assert TwoDigits(NamesOf(found)[i]) != TwoDigits(NamesOf(found)[j]);
      }
    }
  }

  lemma ScannedAreNumbered(found: seq<Fragment>, scanned: seq<Fragment>)
    requires multiset(scanned) == multiset(found) && StrictlyIncreasing(scanned)
    requires forall i :: 0 <= i < |found| ==> found[i].priority == TwoDigits(found[i].name)
    ensures NamesAscend(NamesOf(scanned))
  {
    MembersAgree(scanned, found);
    forall i | 0 <= i < |scanned| ensures scanned[i].priority == TwoDigits(scanned[i].name) {
      assert scanned[i] in found;
    }
  }

  lemma {:induction false} ScanKeepsIff(entries: seq<Entry>)
    ensures Scan(entries).Ok?
       <==> (forall i :: 0 <= i < |entries| ==> Acceptable(entries[i])) && DistinctPriorities(FilterMap(Kept, entries))
    ensures Scan(entries).Ok? ==> StrictlyIncreasing(Scan(entries).value)
    ensures Scan(entries).Ok? ==> multiset(Scan(entries).value) == multiset(FilterMap(Kept, entries))
  {
    CollectFilters(entries);
    forall i | 0 <= i < |entries| ensures Acceptable(entries[i]) <==> Verdict(entries[i]).Ok? {
      AcceptableIsVerdict(entries[i]);
    }
    if Collect(entries).Ok? {
      var found := FilterMap(Kept, entries);
      var sorted := Sort(FragmentLe, found);
      FragmentsAreOrdered();
      SortPermutes(FragmentLe, found);
      SortSorts(FragmentLe, found);
      NeighboursSuffice(sorted);
      if DistinctPriorities(sorted) { DistinctByPermutes(PriorityOf, sorted, found); }
      if DistinctPriorities(found) { DistinctByPermutes(PriorityOf, found, sorted); }
    }
  }

  /** The directory order decides nothing but which of several bad entries is named: for two orders of one
      listing the loader answers the same, down to the error, unless an entry is refused in both. */
  lemma {:induction false} LoadIgnoresDirectoryOrder(
    entries: seq<Entry>, shuffled: seq<Entry>, read: string -> Option<string>,
    main: MainFile, path: string, requireMain: bool, flags: Option<string>)
    requires multiset(entries) == multiset(shuffled)
    ensures var a := LoadScanned(Scan(entries), read, main, path, requireMain, flags);
            var b := LoadScanned(Scan(shuffled), read, main, path, requireMain, flags);
            a == b || (a.Err? && b.Err? && exists i :: 0 <= i < |entries| && !Acceptable(entries[i]))
  {
    CollectFilters(entries);
    CollectFilters(shuffled);
    MembersAgree(entries, shuffled);
    forall i | 0 <= i < |entries| ensures Acceptable(entries[i]) <==> Verdict(entries[i]).Ok? {
      AcceptableIsVerdict(entries[i]);
    }
    if Collect(entries).Ok? {
      forall i | 0 <= i < |shuffled| ensures Verdict(shuffled[i]).Ok? { assert shuffled[i] in entries; }
      FilterMapPermutes(Kept, entries, shuffled);
      FragmentsAreOrdered();
      SortIgnoresOrder(FragmentLe, FilterMap(Kept, entries), FilterMap(Kept, shuffled));
    } else {
      var i :| 0 <= i < |entries| && !Verdict(entries[i]).Ok?;
      assert entries[i] in shuffled;
    }
  }

  lemma {:induction false} ReadAllNames(fragments: seq<Fragment>, read: string -> Option<string>)
    requires ReadAll(fragments, read).Ok?
    ensures var documents := ReadAll(fragments, read).value;
            |documents| == |fragments|
            && forall i :: 0 <= i < |fragments| ==>
                 documents[i].name == fragments[i].name && read(fragments[i].name) == Some(documents[i].text)
  {
    if fragments != [] {
      ReadAllNames(fragments[1..], read);
    }
  }

  function EntriesOf(listing: Listing): seq<Entry> {
    match listing case Listed(entries) => entries case _ => []
  }

  /** One document for each of `names`, in this order, then the main file when there is one, then the flags. */
  ghost predicate LaidOut(documents: seq<Document>, names: seq<string>, read: string -> Option<string>,
                          main: MainFile, path: string, flags: Option<string>) {
    var n := |names|;
    && |documents| == n + (if main.Content? then 1 else 0) + (if flags.Some? then 1 else 0)
    && (forall i :: 0 <= i < n ==> documents[i].name == names[i])
    && (forall i :: 0 <= i < n ==> read(names[i]) == Some(documents[i].text))
    && (main.Content? ==> documents[n] == Document(path, main.text))
    && (flags.Some? ==> documents[|documents| - 1] == Document("command-line flags", flags.value))
  }

  lemma EmptyScan()
    ensures Scan([]) == Ok([])
  {
    assert Sort(FragmentLe, []) == [];
  }

  /** A successful load: the directory's `.toml` names, each once, by the ascending number of their two digits,
      then the main file when there is one, then the flags. */
  lemma {:induction false} DocumentsInOrder(
    listing: Listing, read: string -> Option<string>, main: MainFile, path: string, requireMain: bool,
    flags: Option<string>)
    requires LoadScanned(ScanListing(listing), read, main, path, requireMain, flags).Ok?
    ensures var documents := LoadScanned(ScanListing(listing), read, main, path, requireMain, flags).value;
            exists names :: NamesAscend(names)
              && multiset(names) == multiset(TomlNames(EntriesOf(listing)))
              && LaidOut(documents, names, read, main, path, flags)
  {
    EmptyScan();
    ScanSucceedsIff(EntriesOf(listing));
    var fragments := ScanListing(listing).value;
    ReadAllNames(fragments, read);
    var documents := LoadScanned(ScanListing(listing), read, main, path, requireMain, flags).value;
    DocumentsAreLaidOut(fragments, read, main, path, requireMain, flags);
    assert NamesAscend(NamesOf(fragments)) && LaidOut(documents, NamesOf(fragments), read, main, path, flags);
  }

  lemma DocumentsAreLaidOut(fragments: seq<Fragment>, read: string -> Option<string>, main: MainFile, path: string,
                            requireMain: bool, flags: Option<string>)
    requires LoadScanned(Ok(fragments), read, main, path, requireMain, flags).Ok?
    ensures LaidOut(LoadScanned(Ok(fragments), read, main, path, requireMain, flags).value, NamesOf(fragments),
                    read, main, path, flags)
  {
    ReadAllNames(fragments, read);
  }

  /** When a load succeeds: the listing did, the directory is accepted, every fragment reads, and the main file
      is there or may be missing and is. */
  lemma {:induction false} LoadSucceedsIff(
    listing: Listing, read: string -> Option<string>, main: MainFile, path: string, requireMain: bool,
    flags: Option<string>)
    ensures LoadScanned(ScanListing(listing), read, main, path, requireMain, flags).Ok? <==>
              && !listing.ListingFailed? && Scan(EntriesOf(listing)).Ok?
              && (forall name :: name in TomlNames(EntriesOf(listing)) ==> read(name).Some?)
              && (main.Content? || (main.NotFound? && !requireMain))
  {
    EmptyScan();
    if !listing.ListingFailed? && Scan(EntriesOf(listing)).Ok? {
      ScanSucceedsIff(EntriesOf(listing));
      var fragments := ScanListing(listing).value;
      ReadAllIff(fragments, read);
      MembersAgree(NamesOf(fragments), TomlNames(EntriesOf(listing)));
      forall i | 0 <= i < |fragments| ensures fragments[i].name in TomlNames(EntriesOf(listing)) {
        assert NamesOf(fragments)[i] in NamesOf(fragments);
      }
      forall name | name in TomlNames(EntriesOf(listing))
        ensures exists i :: 0 <= i < |fragments| && fragments[i].name == name
      {
        assert name in NamesOf(fragments);
      }
    }
  }

  lemma {:induction false} ReadAllIff(fragments: seq<Fragment>, read: string -> Option<string>)
    ensures ReadAll(fragments, read).Ok? <==> forall i :: 0 <= i < |fragments| ==> read(fragments[i].name).Some?
    ensures ReadAll(fragments, read).Err? ==>
              exists i :: 0 <= i < |fragments| && ReadAll(fragments, read).error == ReadFragment(fragments[i].name)
                       && read(fragments[i].name).None?
                       && forall j :: 0 <= j < i ==> read(fragments[j].name).Some?
  {
    if fragments != [] && read(fragments[0].name).Some? {
      ReadAllIff(fragments[1..], read);
      assert forall i :: 0 < i < |fragments| ==> fragments[i] == fragments[1..][i - 1];
      if i :| 0 <= i < |fragments| - 1 && ReadAll(fragments[1..], read).Err?
              && ReadAll(fragments[1..], read).error == ReadFragment(fragments[1..][i].name)
              && read(fragments[1..][i].name).None?
              && forall j :: 0 <= j < i ==> read(fragments[1..][j].name).Some?
      {
        forall j | 0 <= j < i + 1 ensures read(fragments[j].name).Some? {
          if j > 0 { assert fragments[j] == fragments[1..][j - 1]; }
        }
        assert read(fragments[i + 1].name).None?;
      }
    }
  }

  /** The error an unacceptable entry causes. */
  ghost predicate Blames(error: Error, entry: Entry) {
    match entry
    case Unreadable => error == ReadEntry
    case NotUtf8(_) => error == NotUtf8Name
    case Named(name) => error == BadName(name)
  }

  /** The loader stops at the first unacceptable entry and blames that; without one, it blames two names that
      start with the same digits. */
  lemma {:induction false} ScanErrorMeans(entries: seq<Entry>)
    requires Scan(entries).Err?
    ensures (exists i :: 0 <= i < |entries| && !Acceptable(entries[i]) && Blames(Scan(entries).error, entries[i])
                      && forall j :: 0 <= j < i ==> Acceptable(entries[j]))
         || (&& (forall i :: 0 <= i < |entries| ==> Acceptable(entries[i]))
             && Scan(entries).error.DuplicatePriority?
             && Scan(entries).error.first in TomlNames(entries) && Scan(entries).error.second in TomlNames(entries)
             && TwoDigits(Scan(entries).error.first) == TwoDigits(Scan(entries).error.second)
                == Scan(entries).error.priority)
  {
    CollectFilters(entries);
    forall i | 0 <= i < |entries| ensures Acceptable(entries[i]) <==> Verdict(entries[i]).Ok? {
      AcceptableIsVerdict(entries[i]);
    }
    if Collect(entries).Err? {
      CollectBlames(entries);
    } else {
      KeptAreNamed(entries);
      var found := FilterMap(Kept, entries);
      SortPermutes(FragmentLe, found);
      MembersAgree(Sort(FragmentLe, found), found);
      DuplicateIsPresent(Sort(FragmentLe, found), found);
    }
  }

  lemma {:induction false} CollectBlames(entries: seq<Entry>)
    requires Collect(entries).Err?
    ensures exists i :: 0 <= i < |entries| && Verdict(entries[i]).Err? && Blames(Collect(entries).error, entries[i])
                     && forall j :: 0 <= j < i ==> Verdict(entries[j]).Ok?
  {
    if Verdict(entries[0]).Ok? {
      var rest := entries[1..];
      CollectBlames(rest);
      var i :| 0 <= i < |rest| && Verdict(rest[i]).Err? && Blames(Collect(rest).error, rest[i])
            && forall j :: 0 <= j < i ==> Verdict(rest[j]).Ok?;
      assert forall j :: 0 < j < i + 1 ==> entries[j] == rest[j - 1];
      assert Verdict(entries[i + 1]).Err? && Blames(Collect(entries).error, entries[i + 1]);
    } else {
      assert Blames(Collect(entries).error, entries[0]);
    }
  }

  lemma {:induction false} DuplicateIsPresent(sorted: seq<Fragment>, found: seq<Fragment>)
    requires FirstDuplicate(sorted).Some? && forall f :: f in sorted ==> f in found
    requires forall i :: 0 <= i < |found| ==> found[i].priority == TwoDigits(found[i].name)
    ensures var e := FirstDuplicate(sorted).value;
            && e.DuplicatePriority? && e.first in NamesOf(found) && e.second in NamesOf(found)
            && TwoDigits(e.first) == TwoDigits(e.second) == e.priority
  {
    if sorted[0].priority == sorted[1].priority {
      assert sorted[0] in found && sorted[1] in found;
      var i :| 0 <= i < |found| && found[i] == sorted[0];
      var j :| 0 <= j < |found| && found[j] == sorted[1];
      assert NamesOf(found)[i] == sorted[0].name && NamesOf(found)[j] == sorted[1].name;
    } else {
      DuplicateIsPresent(sorted[1..], found);
    }
  }

  /** Past the directory, what a load fails with: the first fragment that does not read, else the main file, an
      unreadable state of which is told apart only where it may be missing. */
  lemma {:induction false} LateErrorMeans(fragments: seq<Fragment>, read: string -> Option<string>, main: MainFile,
                                          path: string, requireMain: bool, flags: Option<string>)
    requires LoadScanned(Ok(fragments), read, main, path, requireMain, flags).Err?
    ensures var error := LoadScanned(Ok(fragments), read, main, path, requireMain, flags).error;
            && (error.ReadFragment? <==> exists i :: 0 <= i < |fragments| && read(fragments[i].name).None?)
            && (error.ReadFragment? ==> read(error.name).None?)
            && (!error.ReadFragment? ==>
                  error == if main.Uninspectable? && !requireMain then InspectMain else ReadMain)
  {
    ReadAllIff(fragments, read);
  }
}
