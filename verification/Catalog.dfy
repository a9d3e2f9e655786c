/** Paging through the Scaleway catalog (scripts/refresh-instance-power.py): every page until the catalog
    says it is over, one row per eligible offer. */
module Catalog {
  import opened Permutations
  import opened Sorting
  import opened Wrappers

  const DRAM_GIB_PER_VCPU: real := 8.0
  const GIB: real := 1073741824.0

  datatype Arch = Arch(provider: string, name: string)

  /** The fields the filter reads. A missing text is "", a missing number is 0: both count as absent. */
  datatype Product = Product(
    category: string, offerId: string, status: string, shared: bool, gpuCount: nat,
    cpuType: string, vcpu: nat, ramBytes: nat)

  datatype Page = Page(products: seq<Product>, total: Option<nat>)

  datatype Row = Row(offerId: string, vcpu: nat, arch: Arch, dramPremium: bool)

  datatype Error = NoEligibleOffer

  /** The row of a product that passes the four exclusions. */
  function RowOf(p: Product, cpuArch: map<string, Arch>): Option<Row> {
    if p.category != "Instance" || p.offerId == "" || p.status != "general_availability" || p.shared || p.gpuCount != 0
    then None
    else if p.cpuType !in cpuArch || p.vcpu == 0 then None
    else
      var gibPerVcpu := p.ramBytes as real / GIB / p.vcpu as real;
      Some(Row(p.offerId, p.vcpu, cpuArch[p.cpuType], gibPerVcpu >= DRAM_GIB_PER_VCPU))
  }

  function Flatten(pages: seq<Page>): seq<Product> {
    if pages == [] then [] else Flatten(pages[..|pages| - 1]) + pages[|pages| - 1].products
  }

  /** How many pages the loop folds: it stops at an empty page, or once a reported total is reached. */
  function PagesRead(pages: seq<Page>, seen: nat): (n: nat)
    ensures n <= |pages|
  {
    if pages == [] || pages[0].products == [] then 0
    else
      var seen := seen + |pages[0].products|;
      if pages[0].total.Some? && seen >= pages[0].total.value then 1
      else 1 + PagesRead(pages[1..], seen)
  }

  function ProductsRead(pages: seq<Page>): seq<Product> {
    Flatten(pages[..PagesRead(pages, 0)])
  }

  /** The row of the last eligible product of an offer. */
  function LastRow(products: seq<Product>, cpuArch: map<string, Arch>, id: string): Option<Row> {
    if products == [] then None
    else
      match RowOf(products[|products| - 1], cpuArch)
      case Some(row) => if row.offerId == id then Some(row) else LastRow(products[..|products| - 1], cpuArch, id)
      case None => LastRow(products[..|products| - 1], cpuArch, id)
  }

  ghost predicate IsTable(offers: map<string, Row>, products: seq<Product>, cpuArch: map<string, Arch>) {
    forall id :: LastRow(products, cpuArch, id) == if id in offers then Some(offers[id]) else None
  }

  ghost predicate NothingEligible(products: seq<Product>, cpuArch: map<string, Arch>) {
    forall k :: 0 <= k < |products| ==> RowOf(products[k], cpuArch).None?
  }

  lemma {:induction false} EmptyTableIff(offers: map<string, Row>, products: seq<Product>, cpuArch: map<string, Arch>)
    requires IsTable(offers, products, cpuArch)
    ensures offers == map[] <==> NothingEligible(products, cpuArch)
  {
    if offers == map[] {
      forall k | 0 <= k < |products| ensures RowOf(products[k], cpuArch).None? {
        if RowOf(products[k], cpuArch).Some? {
          EligibleHasRow(products, cpuArch, k);
        }
      }
    } else {
      var id :| id in offers;
      assert LastRow(products, cpuArch, id) == Some(offers[id]);
      RowHasEligible(products, cpuArch, id);
    }
  }

  lemma {:induction false} EligibleHasRow(products: seq<Product>, cpuArch: map<string, Arch>, k: nat)
    requires k < |products| && RowOf(products[k], cpuArch).Some?
    ensures LastRow(products, cpuArch, products[k].offerId).Some?
  {
    var n := |products| - 1;
    if k < n {
      EligibleHasRow(products[..n], cpuArch, k);
    }
  }

  lemma {:induction false} RowHasEligible(products: seq<Product>, cpuArch: map<string, Arch>, id: string)
    requires LastRow(products, cpuArch, id).Some?
    ensures !NothingEligible(products, cpuArch)
  {
    var n := |products| - 1;
    if RowOf(products[n], cpuArch).None? {
      RowHasEligible(products[..n], cpuArch, id);
      var k :| 0 <= k < n && RowOf(products[..n][k], cpuArch).Some?;
      assert products[k] == products[..n][k];
    }
  }

  ghost predicate Ascending(rows: seq<Row>) {
    forall i, j :: 0 <= i < j < |rows| ==>
      StringLe(rows[i].offerId, rows[j].offerId) && rows[i].offerId != rows[j].offerId
  }

  /** One sorted row per offer that had an eligible product, the last such product's. */
  method FetchScaleway(pages: seq<Page>, cpuArch: map<string, Arch>) returns (result: Result<seq<Row>, Error>)
    ensures result.Err? <==> NothingEligible(ProductsRead(pages), cpuArch)
    ensures result.Ok? ==> Ascending(result.value)
    ensures result.Ok? ==> forall row ::
              row in result.value <==> LastRow(ProductsRead(pages), cpuArch, row.offerId) == Some(row)
  {
    var offers: map<string, Row> := map[];
    var page: nat, seen: nat := 1, 0;
    assert pages[..0] == [] && pages[0..] == pages;
    while true
      invariant 1 <= page <= |pages| + 1
      invariant PagesRead(pages, 0) == page - 1 + PagesRead(pages[page - 1..], seen)
      invariant IsTable(offers, Flatten(pages[..page - 1]), cpuArch)
      decreases |pages| - page
    {
      // A page past the end of the catalog comes back empty.
      var payload := if page <= |pages| then pages[page - 1] else Page([], None);
      if payload.products == [] { break; }
      offers := FoldPage(offers, Flatten(pages[..page - 1]), payload.products, cpuArch);
      assert pages[..page][..page - 1] == pages[..page - 1];
      assert pages[page - 1..][1..] == pages[page..];
      seen := seen + |payload.products|;
      if payload.total.Some? && seen >= payload.total.value {
        page := page + 1;
        break;
      }
      page := page + 1;
    }
    assert IsTable(offers, ProductsRead(pages), cpuArch);
    EmptyTableIff(offers, ProductsRead(pages), cpuArch);
    if offers == map[] {
      return Err(NoEligibleOffer);
    }
    var rows := SortedValues(offers, ProductsRead(pages), cpuArch);
    return Ok(rows);
  }

  method FoldPage(offers: map<string, Row>, ghost before: seq<Product>, products: seq<Product>,
                  cpuArch: map<string, Arch>)
    returns (longer: map<string, Row>)
    requires IsTable(offers, before, cpuArch)
    ensures IsTable(longer, before + products, cpuArch)
  {
    longer := offers;
    assert before + products[..0] == before;
    for i := 0 to |products|
      invariant IsTable(longer, before + products[..i], cpuArch)
    {
      ghost var now := before + products[..i + 1];
      assert now[..|now| - 1] == before + products[..i] && now[|now| - 1] == products[i];
      match RowOf(products[i], cpuArch) {
        case None =>
        case Some(row) => longer := longer[row.offerId := row];
      }
    }
    assert products[..|products|] == products;
  }

  /** `sorted(offers.values())`: the rows by offer id, which is the first component of each. */
  method SortedValues(offers: map<string, Row>, ghost products: seq<Product>, cpuArch: map<string, Arch>)
    returns (rows: seq<Row>)
    requires IsTable(offers, products, cpuArch)
    ensures Ascending(rows)
    ensures forall row :: row in rows <==> LastRow(products, cpuArch, row.offerId) == Some(row)
  {
    var ids: seq<string> := [];
    var rest := offers.Keys;
    while rest != {}
      invariant rest <= offers.Keys
      invariant forall id :: id in ids <==> id in offers && id !in rest
      invariant DistinctBy(Itself, ids)
      decreases rest
    {
      var id :| id in rest;
      ids := ids + [id];
      rest := rest - {id};
    }
    SortedIdsAscend(ids);
    ids := Sort(StringLe, ids);
    rows := seq(|ids|, i requires 0 <= i < |ids| && ids[i] in offers => offers[ids[i]]);
    RowsOfIds(offers, products, cpuArch, ids, rows);
  }

  lemma SortedIdsAscend(ids: seq<string>)
    requires DistinctBy(Itself, ids)
    ensures var sorted := Sort(StringLe, ids);
            && (forall id :: id in sorted <==> id in ids)
            && (forall i, j :: 0 <= i < j < |sorted| ==> StringLe(sorted[i], sorted[j]) && sorted[i] != sorted[j])
  {
    var sorted := Sort(StringLe, ids);
    StringsAreOrdered();
    SortPermutes(StringLe, ids);
    SortSorts(StringLe, ids);
    MembersAgree(ids, sorted);
    DistinctByPermutes(Itself, ids, sorted);
    assert forall i, j :: 0 <= i < j < |sorted| ==> Itself(sorted[i]) != Itself(sorted[j]);
  }

  lemma IdsAreTheirRows(offers: map<string, Row>, products: seq<Product>, cpuArch: map<string, Arch>, id: string)
    requires IsTable(offers, products, cpuArch) && id in offers
    ensures offers[id].offerId == id
  {
    assert LastRow(products, cpuArch, id) == Some(offers[id]);
    LastRowNamesItsOffer(products, cpuArch, id);
  }

  lemma {:induction false} LastRowNamesItsOffer(products: seq<Product>, cpuArch: map<string, Arch>, id: string)
    ensures LastRow(products, cpuArch, id).Some? ==> LastRow(products, cpuArch, id).value.offerId == id
  {
    if products != [] {
      LastRowNamesItsOffer(products[..|products| - 1], cpuArch, id);
    }
  }

  lemma RowsOfIds(offers: map<string, Row>, products: seq<Product>, cpuArch: map<string, Arch>,
                  ids: seq<string>, rows: seq<Row>)
    requires IsTable(offers, products, cpuArch)
    requires forall id :: id in ids <==> id in offers
    requires forall i, j :: 0 <= i < j < |ids| ==> StringLe(ids[i], ids[j]) && ids[i] != ids[j]
    requires |rows| == |ids| && forall i :: 0 <= i < |ids| ==> ids[i] in offers && rows[i] == offers[ids[i]]
    ensures Ascending(rows)
    ensures forall row :: row in rows <==> LastRow(products, cpuArch, row.offerId) == Some(row)
  {
    forall i | 0 <= i < |ids| ensures rows[i].offerId == ids[i] {
      IdsAreTheirRows(offers, products, cpuArch, ids[i]);
    }
    forall row
      ensures row in rows <==> LastRow(products, cpuArch, row.offerId) == Some(row)
    {
      if LastRow(products, cpuArch, row.offerId) == Some(row) {
        assert row.offerId in offers && offers[row.offerId] == row;
        assert row.offerId in ids;
        var i :| 0 <= i < |ids| && ids[i] == row.offerId;
        assert rows[i] == row;
      }
      if row in rows {
        var i :| 0 <= i < |rows| && rows[i] == row;
        assert LastRow(products, cpuArch, ids[i]) == Some(offers[ids[i]]);
      }
    }
  }

  function Itself(id: string): string { id }

  // ----- when the loop reads the whole catalog

  /** No page but the last reports a total the products seen so far already reach. */
  ghost predicate NoEarlyTotal(pages: seq<Page>, seen: nat) {
    forall k :: 0 <= k < |pages| - 1 ==>
      pages[k].total.Some? ==> pages[k].total.value > seen + |Flatten(pages[..k + 1])|
  }

  lemma {:induction false} FlattenHead(first: Page, rest: seq<Page>)
    ensures Flatten([first] + rest) == first.products + Flatten(rest)
  {
    var pages := [first] + rest;
    if rest == [] {
      assert pages[..0] == [];
    } else {
      var n := |rest| - 1;
      assert pages[..n + 1] == [first] + rest[..n];
      FlattenHead(first, rest[..n]);
      assert pages[n + 1] == rest[n];
    }
  }

  lemma SeenAfter(pages: seq<Page>, k: nat)
    requires k + 1 < |pages|
    ensures |Flatten(pages[..k + 2])| == |pages[0].products| + |Flatten(pages[1..][..k + 1])|
    ensures |Flatten(pages[..1])| == |pages[0].products|
  {
    assert pages[..k + 2] == [pages[0]] + pages[1..][..k + 1];
    FlattenHead(pages[0], pages[1..][..k + 1]);
    assert pages[..1][..0] == [];
  }

  lemma {:induction false} EarlyTotalUnfolds(pages: seq<Page>, seen: nat)
    requires |pages| > 1
    ensures NoEarlyTotal(pages, seen) <==> (
              && (pages[0].total.None? || pages[0].total.value > seen + |pages[0].products|)
              && NoEarlyTotal(pages[1..], seen + |pages[0].products|))
  {
    var rest, now := pages[1..], seen + |pages[0].products|;
    SeenAfter(pages, 0);
    if NoEarlyTotal(pages, seen) {
      assert pages[0].total.Some? ==> pages[0].total.value > seen + |Flatten(pages[..0 + 1])|;
      forall k | 0 <= k < |rest| - 1 && rest[k].total.Some?
        ensures rest[k].total.value > now + |Flatten(rest[..k + 1])|
      {
        assert pages[k + 1] == rest[k];
        SeenAfter(pages, k);
      }
    }
    if (pages[0].total.None? || pages[0].total.value > now) && NoEarlyTotal(rest, now) {
      forall k | 0 <= k < |pages| - 1 && pages[k].total.Some?
        ensures pages[k].total.value > seen + |Flatten(pages[..k + 1])|
      {
        if k > 0 {
          assert pages[k] == rest[k - 1];
          SeenAfter(pages, k - 1);
        }
      }
    }
  }

  /** Against non-empty pages the loop folds all of them, each once, exactly when no earlier page reports a
      total that is already reached. */
  lemma {:induction false} ReadsEveryPageIff(pages: seq<Page>, seen: nat)
    requires forall k :: 0 <= k < |pages| ==> pages[k].products != []
    ensures PagesRead(pages, seen) == |pages| <==> NoEarlyTotal(pages, seen)
  {
    if |pages| > 1 {
      ReadsEveryPageIff(pages[1..], seen + |pages[0].products|);
      EarlyTotalUnfolds(pages, seen);
    }
  }

  lemma {:induction false} FlattenGrows(pages: seq<Page>, k: nat)
    requires k < |pages| && forall i :: 0 <= i < |pages| ==> pages[i].products != []
    ensures |Flatten(pages[..k])| < |Flatten(pages)|
    decreases |pages|
  {
    var n := |pages| - 1;
    if k < n {
      FlattenGrows(pages[..n], k);
      assert pages[..n][..k] == pages[..k];
    }
  }

  /** A catalog that reports its true total, or none, is read whole. */
  lemma {:induction false} HonestCatalogIsReadWhole(pages: seq<Page>)
    requires forall k :: 0 <= k < |pages| ==> pages[k].products != []
    requires forall k :: 0 <= k < |pages| ==> pages[k].total.None? || pages[k].total == Some(|Flatten(pages)|)
    ensures ProductsRead(pages) == Flatten(pages)
  {
    forall k | 0 <= k < |pages| - 1 && pages[k].total.Some?
      ensures pages[k].total.value > 0 + |Flatten(pages[..k + 1])|
    {
      FlattenGrows(pages, k + 1);
    }
    ReadsEveryPageIff(pages, 0);
    assert pages[..|pages|] == pages;
  }

  /** What a row says: some eligible product has it, and no later product of that offer is eligible. */
  lemma {:induction false} LastRowIsLast(products: seq<Product>, cpuArch: map<string, Arch>, id: string, row: Row)
    ensures LastRow(products, cpuArch, id) == Some(row)
       <==> exists k :: 0 <= k < |products| && RowOf(products[k], cpuArch) == Some(row) && row.offerId == id
                     && forall l :: k < l < |products| ==>
                          RowOf(products[l], cpuArch).None? || RowOf(products[l], cpuArch).value.offerId != id
  {
    if products != [] {
      var n := |products| - 1;
      LastRowIsLast(products[..n], cpuArch, id, row);
    }
  }

  /** Which products are eligible, and what their rows say. The premium starts at 8 GiB of memory per vCPU. */
  lemma {:induction false} EligibleIff(p: Product, cpuArch: map<string, Arch>)
    ensures RowOf(p, cpuArch).Some? <==>
              && p.category == "Instance" && p.offerId != "" && p.status == "general_availability"
              && !p.shared && p.gpuCount == 0 && p.cpuType in cpuArch && p.vcpu > 0
    ensures RowOf(p, cpuArch).Some? ==>
              var row := RowOf(p, cpuArch).value;
              && row.offerId == p.offerId && row.vcpu == p.vcpu && row.arch == cpuArch[p.cpuType]
              && (row.dramPremium <==> p.ramBytes >= 8 * 1_073_741_824 * p.vcpu)
  {
    if p.vcpu > 0 {
      var gib := p.ramBytes as real / GIB;
      assert gib * GIB == p.ramBytes as real;
      QuotientAtLeast(gib, p.vcpu as real, DRAM_GIB_PER_VCPU);
      assert gib >= 8.0 * p.vcpu as real <==> p.ramBytes as real >= 8.0 * p.vcpu as real * GIB;
      assert 8.0 * p.vcpu as real * GIB == (8 * 1_073_741_824 * p.vcpu) as real;
    }
  }

  lemma QuotientAtLeast(a: real, b: real, c: real)
    requires b > 0.0
    ensures a / b >= c <==> a >= c * b
  {
    var q := a / b;
    assert q * b == a;
    assert (q - c) * b == a - c * b;
    if q >= c { assert (q - c) * b >= 0.0; }
    if q < c { assert (c - q) * b > 0.0; }
  }

  /** Where the loop stops: at the catalog's end, at an empty page, or when the total that the last page reports
      is reached. */
  ghost predicate StopsAt(pages: seq<Page>, seen: nat, n: nat) {
    n <= |pages|
    && (|| n == |pages| || pages[n].products == []
        || (n > 0 && pages[n - 1].total.Some? && seen + |Flatten(pages[..n])| >= pages[n - 1].total.value))
  }

  lemma StopsLater(pages: seq<Page>, seen: nat, n: nat)
    requires 0 < n < |pages|
    ensures StopsAt(pages, seen, n + 1) <==> StopsAt(pages[1..], seen + |pages[0].products|, n)
  {
    var rest := pages[1..];
    assert pages[..n + 1] == [pages[0]] + rest[..n];
    FlattenHead(pages[0], rest[..n]);
  }

  /** It reads up to the first place where it must stop. */
  lemma {:induction false} ReadsToTheFirstStop(pages: seq<Page>, seen: nat)
    ensures StopsAt(pages, seen, PagesRead(pages, seen))
    ensures forall k :: 0 <= k < PagesRead(pages, seen) ==> !StopsAt(pages, seen, k)
  {
    if pages != [] && pages[0].products != [] {
      var now, rest := seen + |pages[0].products|, pages[1..];
      assert pages[..1][..0] == [] && pages[..1] == [pages[0]];
      assert |Flatten(pages[..1])| == |pages[0].products|;
      if !(pages[0].total.Some? && now >= pages[0].total.value) {
        ReadsToTheFirstStop(rest, now);
        forall n | 0 < n <= |rest| ensures StopsAt(pages, seen, n + 1) <==> StopsAt(rest, now, n) {
          StopsLater(pages, seen, n);
        }
        assert StopsAt(pages, seen, 1) <==> StopsAt(rest, now, 0);
        forall k | 0 <= k < PagesRead(pages, seen) ensures !StopsAt(pages, seen, k) {
          if k > 0 { assert !StopsAt(rest, now, k - 1); }
        }
      }
    }
  }
}
