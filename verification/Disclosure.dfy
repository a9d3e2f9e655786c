/** The application list of a disclosure report (crates/sentinel-cli/src/disclose.rs), in its Internal and
    Public forms. Floating point is exact here; integer sums wrap at 64 bits, as in a release build. */
module Disclosure {
  import opened Permutations
  import opened Wrappers

  const UNATTRIBUTED_SERVICE := "_unattributed"
  const ENERGY_PER_IO_OP_KWH: real := 0.0000001
  const U32_MAX: nat := 0xFFFF_FFFF
  const U64_MAX: nat := 0xFFFF_FFFF_FFFF_FFFF

  type U64 = n: nat | n <= U64_MAX

  datatype Confidentiality = Internal | Public

  datatype AntiPattern = AntiPattern(kind: string, occurrences: U64, avoidableIoOps: U64)

  /** What one service accumulated over the period. Maps are listed in their key order. */
  datatype Service = Service(
    name: string, totalRequests: U64, totalIoOps: U64, energyKwh: real, carbonKg: real,
    endpointsSeen: nat, antiPatterns: seq<AntiPattern>)

  /** When patterns were seen, by service and pattern; `now` stands in for a missing entry. `criteria` is the
      library's table of RGESN criteria by pattern. */
  datatype Lookup = Lookup(
    first: map<(string, string), int>, last: map<(string, string), int>, now: int, criteria: string -> seq<string>)

  datatype Detail = Detail(
    kind: string, occurrences: U64, wasteKwh: real, wasteKg: real, firstSeen: int, lastSeen: int, criteria: seq<string>)

  datatype Application =
    | G1(serviceName: string, endpointsObserved: nat, totalRequests: U64, energyKwh: real, carbonKg: real,
         efficiencyScore: real, antiPatterns: seq<Detail>)
    | G2(serviceName: string, endpointsObserved: nat, totalRequests: U64, energyKwh: real, carbonKg: real,
         efficiencyScore: real, detectedCount: U64)

  predicate Measured(s: Service) { s.name != UNATTRIBUTED_SERVICE }

  /** The count `build_report` publishes beside the list. */
  function MeasuredCount(services: seq<Service>): nat {
    SumBy((s: Service) => if Measured(s) then 1 else 0, services)
  }

  function ToU32(n: nat): (r: nat)
    ensures n <= U32_MAX ==> r == n
    ensures n > U32_MAX ==> r == U32_MAX
  {
    if n <= U32_MAX then n else U32_MAX
  }

  /** A sum of `u64`s, as the machine makes it. */
  function Wrapped(n: nat): U64 { n % (U64_MAX + 1) }

  function OccurrencesOf(p: AntiPattern): nat { p.occurrences }

  function AvoidableOf(p: AntiPattern): nat { p.avoidableIoOps }

  function Occurrences(patterns: seq<AntiPattern>): nat { SumBy(OccurrencesOf, patterns) }

  function Avoidable(patterns: seq<AntiPattern>): nat { SumBy(AvoidableOf, patterns) }

  function Clamp(x: real, low: real, high: real): real {
    if x < low then low else if x > high then high else x
  }

  function EfficiencyScore(s: Service): real {
    if s.totalIoOps == 0 then (if Wrapped(Occurrences(s.antiPatterns)) == 0 then 100.0 else 0.0)
    else Clamp(100.0 - 100.0 * Wrapped(Avoidable(s.antiPatterns)) as real / s.totalIoOps as real, 0.0, 100.0)
  }

  function CarbonRatio(s: Service): real {
    if s.energyKwh > 0.0 then s.carbonKg / s.energyKwh else 0.0
  }

  function Seen(times: map<(string, string), int>, service: string, kind: string, now: int): int {
    if (service, kind) in times then times[(service, kind)] else now
  }

  function DetailOf(service: string, p: AntiPattern, ratio: real, at: Lookup): Detail {
    var waste := p.avoidableIoOps as real * ENERGY_PER_IO_OP_KWH;
    Detail(p.kind, p.occurrences, waste, waste * ratio,
           Seen(at.first, service, p.kind, at.now), Seen(at.last, service, p.kind, at.now), at.criteria(p.kind))
  }

  function Details(service: string, patterns: seq<AntiPattern>, ratio: real, at: Lookup): seq<Detail> {
    seq(|patterns|, i requires 0 <= i < |patterns| => DetailOf(service, patterns[i], ratio, at))
  }

  function ApplicationOf(at: Lookup, form: Confidentiality): Service -> Option<Application> {
    (s: Service) =>
      if !Measured(s) then None
      else match form
        case Internal =>
          Some(G1(s.name, ToU32(s.endpointsSeen), s.totalRequests, s.energyKwh, s.carbonKg, EfficiencyScore(s),
                  Details(s.name, s.antiPatterns, CarbonRatio(s), at)))
        case Public =>
          Some(G2(s.name, ToU32(s.endpointsSeen), s.totalRequests, s.energyKwh, s.carbonKg, EfficiencyScore(s),
                  Wrapped(Occurrences(s.antiPatterns))))
  }

  function Applications(services: seq<Service>, at: Lookup, form: Confidentiality): seq<Application> {
    FilterMap(ApplicationOf(at, form), services)
  }

  method BuildAntiPatternDetails(service: string, patterns: seq<AntiPattern>, ratio: real, at: Lookup)
    returns (out: seq<Detail>)
    ensures out == Details(service, patterns, ratio, at)
  {
    out := [];
    for i := 0 to |patterns|
      invariant out == Details(service, patterns, ratio, at)[..i]
    {
      ghost var all := Details(service, patterns, ratio, at);
      assert all[..i + 1] == all[..i] + [DetailOf(service, patterns[i], ratio, at)];
      out := out + [DetailOf(service, patterns[i], ratio, at)];
    }
  }

  method BuildApplications(services: seq<Service>, at: Lookup, form: Confidentiality) returns (out: seq<Application>)
    ensures out == Applications(services, at, form)
  {
    out := [];
    for i := 0 to |services|
      invariant out == Applications(services[..i], at, form)
    {
      var s := services[i];
      assert services[..i + 1] == services[..i] + [s];
      FilterMapAppends(ApplicationOf(at, form), services[..i], [s]);
      var one := ApplicationOf(at, form)(s);
      assert FilterMap(ApplicationOf(at, form), [s]) == if one.Some? then [one.value] else [];
      if s.name == UNATTRIBUTED_SERVICE {
        continue;
      }
      var score, endpoints := EfficiencyScore(s), ToU32(s.endpointsSeen);
      match form {
        case Internal =>
          var details := BuildAntiPatternDetails(s.name, s.antiPatterns, CarbonRatio(s), at);
          out := out + [G1(s.name, endpoints, s.totalRequests, s.energyKwh, s.carbonKg, score, details)];
        case Public =>
          var count := Wrapped(Occurrences(s.antiPatterns));
          out := out + [G2(s.name, endpoints, s.totalRequests, s.energyKwh, s.carbonKg, score, count)];
      }
    }
    assert services[..|services|] == services;
  }

  // ----- what the two forms keep of each other

  /** The list is as long as the published count, as far as that count fits its 32 bits. */
  lemma {:induction false} ListMatchesCount(services: seq<Service>, at: Lookup, form: Confidentiality)
    ensures |Applications(services, at, form)| == MeasuredCount(services)
    ensures |Applications(services, at, form)| == ToU32(MeasuredCount(services)) <==> MeasuredCount(services) <= U32_MAX
  {
    if services != [] {
      ListMatchesCount(services[1..], at, form);
    }
  }

  function DetailOccurrences(details: seq<Detail>): nat { SumBy((d: Detail) => d.occurrences, details) }

  lemma {:induction false} DetailsKeepOccurrences(service: string, patterns: seq<AntiPattern>, ratio: real, at: Lookup)
    ensures DetailOccurrences(Details(service, patterns, ratio, at)) == Occurrences(patterns)
  {
    if patterns != [] {
      DetailsKeepOccurrences(service, patterns[1..], ratio, at);
      assert Details(service, patterns, ratio, at)[1..] == Details(service, patterns[1..], ratio, at);
    }
  }

  ghost predicate SameFields(a: Application, b: Application) {
    && a.serviceName == b.serviceName && a.endpointsObserved == b.endpointsObserved
    && a.totalRequests == b.totalRequests && a.energyKwh == b.energyKwh && a.carbonKg == b.carbonKg
    && a.efficiencyScore == b.efficiencyScore
  }

  /** One period published twice: the same services in the same order, field by field, and a public count that
      is the sum of the internal occurrences exactly when that sum fits its 64 bits. */
  lemma {:induction false} FormsAgree(services: seq<Service>, at: Lookup)
    ensures var internal := Applications(services, at, Internal);
            var public := Applications(services, at, Public);
            |internal| == |public|
            && forall i :: 0 <= i < |internal| ==>
                 && internal[i].G1? && public[i].G2? && SameFields(internal[i], public[i])
                 && public[i].detectedCount == Wrapped(DetailOccurrences(internal[i].antiPatterns))
                 && (public[i].detectedCount == DetailOccurrences(internal[i].antiPatterns)
                     <==> DetailOccurrences(internal[i].antiPatterns) <= U64_MAX)
  {
    if services != [] {
      FormsAgree(services[1..], at);
      var s := services[0];
      DetailsKeepOccurrences(s.name, s.antiPatterns, CarbonRatio(s), at);
    }
  }

  function WasteKwh(details: seq<Detail>): real {
    if details == [] then 0.0 else details[0].wasteKwh + WasteKwh(details[1..])
  }

  function WasteKg(details: seq<Detail>): real {
    if details == [] then 0.0 else details[0].wasteKg + WasteKg(details[1..])
  }

  /** The waste of the patterns adds up to the service's avoidable operations times the coefficient, and its
      carbon to that times the service's own ratio. */
  lemma {:induction false} WasteAddsUp(service: string, patterns: seq<AntiPattern>, ratio: real, at: Lookup)
    ensures var details := Details(service, patterns, ratio, at);
            && WasteKwh(details) == Avoidable(patterns) as real * ENERGY_PER_IO_OP_KWH
            && WasteKg(details) == Avoidable(patterns) as real * ENERGY_PER_IO_OP_KWH * ratio
  {
    if patterns != [] {
      WasteAddsUp(service, patterns[1..], ratio, at);
      var details := Details(service, patterns, ratio, at);
      var rest := Avoidable(patterns[1..]) as real * ENERGY_PER_IO_OP_KWH;
      assert details[1..] == Details(service, patterns[1..], ratio, at);
      assert (details[0].wasteKwh + rest) * ratio == details[0].wasteKwh * ratio + rest * ratio;
    }
  }

  /** Every score lies in [0, 100]. By the sums as the machine makes them, a full score means that no I/O was
      avoidable (and, without any I/O, that nothing was found), and a zero that all of it was. */
  lemma {:induction false} ScoreMeaning(s: Service)
    ensures 0.0 <= EfficiencyScore(s) <= 100.0
    ensures s.totalIoOps > 0 ==> (EfficiencyScore(s) == 100.0 <==> Wrapped(Avoidable(s.antiPatterns)) == 0)
    ensures s.totalIoOps > 0 ==> (EfficiencyScore(s) == 0.0 <==> Wrapped(Avoidable(s.antiPatterns)) >= s.totalIoOps)
    ensures s.totalIoOps == 0 ==> (EfficiencyScore(s) == 100.0 <==> Wrapped(Occurrences(s.antiPatterns)) == 0)
  {
    if s.totalIoOps > 0 {
      ShareOf(Wrapped(Avoidable(s.antiPatterns)) as real, s.totalIoOps as real);
    }
  }

  /** Past 64 bits it does not: all the I/O of this service is avoidable, and its score is full. */
  lemma {:induction false} WrappedScoreMisleads()
    ensures var half := AntiPattern("n_plus_one", 1, 0x8000_0000_0000_0000);
            var s := Service("orders", 1, 1, 0.0, 0.0, 1, [half, half]);
            Avoidable(s.antiPatterns) > s.totalIoOps && EfficiencyScore(s) == 100.0
  {
    var half := AntiPattern("n_plus_one", 1, 0x8000_0000_0000_0000);
    assert [half, half][1..] == [half] && [half][1..] == [];
    assert SumBy(AvoidableOf, [half]) == AvoidableOf(half) + SumBy(AvoidableOf, []);
    assert Avoidable([half, half]) == U64_MAX + 1;
  }

  lemma ShareOf(a: real, t: real)
    requires a >= 0.0 && t > 0.0
    ensures var percent := 100.0 * a / t;
            && percent >= 0.0
            && (percent == 0.0 <==> a == 0.0)
            && (percent >= 100.0 <==> a >= t)
  {
    var percent := 100.0 * a / t;
    assert percent * t == 100.0 * a;
    assert (percent - 100.0) * t == 100.0 * (a - t);
    SignOfProduct(percent, t);
    SignOfProduct(percent - 100.0, t);
  }

  lemma SignOfProduct(x: real, t: real)
    requires t > 0.0
    ensures x * t >= 0.0 <==> x >= 0.0
    ensures x * t == 0.0 <==> x == 0.0
  {
  }

  // ----- what a report says of a service

  /** Percent of the service's I/O that was not avoidable, by the sums as the machine makes them. */
  lemma {:induction false} ScoreIsTheShareLeft(s: Service)
    ensures var avoidable := Wrapped(Avoidable(s.antiPatterns)) as real;
            var total := s.totalIoOps as real;
            && (0.0 < total && avoidable <= total ==> EfficiencyScore(s) * total == 100.0 * (total - avoidable))
            && (0.0 < total < avoidable ==> EfficiencyScore(s) == 0.0)
            && (total == 0.0 ==> EfficiencyScore(s) == if Wrapped(Occurrences(s.antiPatterns)) == 0 then 100.0 else 0.0)
  {
    var avoidable, total := Wrapped(Avoidable(s.antiPatterns)) as real, s.totalIoOps as real;
    if total > 0.0 {
      ShareOf(avoidable, total);
      assert (100.0 * avoidable / total) * total == 100.0 * avoidable;
    }
  }

  ghost predicate Describes(d: Detail, p: AntiPattern, s: Service, at: Lookup) {
    var id := (s.name, p.kind);
    && d.kind == p.kind && d.occurrences == p.occurrences
    && 10_000_000.0 * d.wasteKwh == p.avoidableIoOps as real
    && (s.energyKwh > 0.0 ==> d.wasteKg * s.energyKwh == d.wasteKwh * s.carbonKg)
    && (s.energyKwh <= 0.0 ==> d.wasteKg == 0.0)
    && d.firstSeen == (if id in at.first then at.first[id] else at.now)
    && d.lastSeen == (if id in at.last then at.last[id] else at.now)
    && d.criteria == at.criteria(p.kind)
  }

  lemma DetailDescribes(p: AntiPattern, s: Service, at: Lookup)
    ensures Describes(DetailOf(s.name, p, CarbonRatio(s), at), p, s, at)
  {
    var d := DetailOf(s.name, p, CarbonRatio(s), at);
    if s.energyKwh > 0.0 {
      assert CarbonRatio(s) * s.energyKwh == s.carbonKg;
      assert d.wasteKg * s.energyKwh == d.wasteKwh * (CarbonRatio(s) * s.energyKwh);
    }
  }

  ghost predicate Publishes(a: Application, s: Service, at: Lookup, form: Confidentiality) {
    && a.serviceName == s.name && a.totalRequests == s.totalRequests
    && a.energyKwh == s.energyKwh && a.carbonKg == s.carbonKg && a.efficiencyScore == EfficiencyScore(s)
    && a.endpointsObserved == (if s.endpointsSeen <= 4_294_967_295 then s.endpointsSeen else 4_294_967_295)
    && (form == Internal ==>
          && a.G1? && |a.antiPatterns| == |s.antiPatterns|
          && forall i :: 0 <= i < |s.antiPatterns| ==> Describes(a.antiPatterns[i], s.antiPatterns[i], s, at))
    && (form == Public ==> a.G2? && a.detectedCount == Wrapped(Occurrences(s.antiPatterns)))
  }

  function Attributed(services: seq<Service>): seq<Service> {
    FilterMap((s: Service) => if s.name == "_unattributed" then None else Some(s), services)
  }

  lemma ApplicationPublishes(s: Service, at: Lookup, form: Confidentiality)
    requires s.name != "_unattributed"
    ensures var a := ApplicationOf(at, form)(s); a.Some? && Publishes(a.value, s, at, form)
  {
    forall i | 0 <= i < |s.antiPatterns|
      ensures Describes(Details(s.name, s.antiPatterns, CarbonRatio(s), at)[i], s.antiPatterns[i], s, at)
    {
      DetailDescribes(s.antiPatterns[i], s, at);
    }
  }

  /** The list publishes the attributed services, each once, in order, and of each its own figures. */
  lemma {:induction false} ListPublishes(services: seq<Service>, at: Lookup, form: Confidentiality)
    ensures var list, attributed := Applications(services, at, form), Attributed(services);
            |list| == |attributed| && forall i :: 0 <= i < |list| ==> Publishes(list[i], attributed[i], at, form)
  {
    if services != [] {
      ListPublishes(services[1..], at, form);
      if services[0].name != "_unattributed" {
        ApplicationPublishes(services[0], at, form);
      }
    }
  }
}
