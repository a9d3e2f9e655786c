/** The bounded fan-out of `query inspect` (crates/sentinel-cli/src/query.rs): a sliding window of fetches
    that complete in any order. */
module FanOut {

  datatype TraceId = TraceId(text: string)

  /** How one fetch ends: a rendered tree, no tree (transport, status or parse failure), or a join error. */
  datatype Fetch = Tree(text: string) | NoTree | JoinFailed

  /** The loop's state: ids not yet spawned, spawned and not joined, joined, and the map being built. */
  datatype Window = Window(
    pending: seq<TraceId>, inFlight: set<TraceId>, joined: set<TraceId>, results: map<TraceId, string>)

  predicate Distinct(ids: seq<TraceId>) {
    forall i, j :: 0 <= i < j < |ids| ==> ids[i] != ids[j]
  }

  function Members(ids: seq<TraceId>): set<TraceId> {
    set id | id in ids
  }

  /** What the caller is promised: one entry for each id whose fetch succeeded. */
  function Trees(ids: set<TraceId>, fetch: TraceId -> Fetch): map<TraceId, string> {
    map id | id in ids && fetch(id).Tree? :: fetch(id).text
  }

  function Spawn(w: Window): Window
    requires w.pending != []
  {
    w.(pending := w.pending[1..], inFlight := w.inFlight + {w.pending[0]})
  }

  function Join(w: Window, id: TraceId, fetch: TraceId -> Fetch): Window {
    w.(inFlight := w.inFlight - {id},
       joined := w.joined + {id},
       results := Recorded(w.results, id, fetch(id)))
  }

  function Recorded(results: map<TraceId, string>, id: TraceId, outcome: Fetch): map<TraceId, string> {
    if outcome.Tree? then results[id := outcome.text] else results
  }

  /** The window moves from `w` to `w'` when some fetch in flight completes. */
  ghost predicate Step(w: Window, w': Window, fetch: TraceId -> Fetch) {
    exists id :: id in w.inFlight && w' == Refill(Join(w, id, fetch))
  }

  function Refill(w: Window): Window {
    if w.pending == [] then w else Spawn(w)
  }

  /** The window once primed: the first `concurrency` ids, or all of them, in flight. */
  function Begin(ids: seq<TraceId>, concurrency: nat): Window {
    var n := if concurrency <= |ids| then concurrency else |ids|;
    Window(ids[n..], Members(ids[..n]), {}, map[])
  }

  ghost predicate IsRun(run: seq<Window>, ids: seq<TraceId>, concurrency: nat, fetch: TraceId -> Fetch) {
    && run != []
    && run[0] == Begin(ids, concurrency)
    && forall i :: 0 <= i < |run| - 1 ==> Step(run[i], run[i + 1], fetch)
  }

  /** Spawns up to `concurrency` fetches before the first join. */
  method Prime(ids: seq<TraceId>, concurrency: nat) returns (w: Window)
    ensures w == Begin(ids, concurrency)
  {
    w := Window(ids, {}, {}, map[]);
    var n := 0;
    assert ids[0..] == ids && Members(ids[..0]) == {};
    while n < concurrency && w.pending != []
      invariant n <= |ids| && n <= concurrency
      invariant w == Window(ids[n..], Members(ids[..n]), {}, map[])
    {
      assert ids[..n + 1] == ids[..n] + [ids[n]];
      w := Spawn(w);
      n := n + 1;
    }
  }

  /** The loop of the source. `run` records the window after priming and after each join. */
  method FetchExplainTrees(ids: seq<TraceId>, concurrency: nat, fetch: TraceId -> Fetch)
    returns (results: map<TraceId, string>, run: seq<Window>)
    requires Distinct(ids)
    ensures IsRun(run, ids, concurrency, fetch)
    ensures run[|run| - 1].inFlight == {} && results == run[|run| - 1].results
    ensures concurrency > 0 ==> results == Trees(Members(ids), fetch)
  {
    var w := Prime(ids, concurrency);
    run := [w];
    while w.inFlight != {}
      invariant IsRun(run, ids, concurrency, fetch) && run[|run| - 1] == w
      decreases |w.pending| + |w.inFlight|
    {
      var id :| id in w.inFlight;
      OnePass(run, ids, concurrency, fetch, id);
      w := Join(w, id, fetch);
      if w.pending != [] {
        w := Spawn(w);
      }
      run := run + [w];
    }
    results := w.results;
    if concurrency > 0 {
      CompleteRunIsExact(run, ids, concurrency, fetch);
    }
  }

  // ----- what every run keeps

  /** Pending, in flight and joined partition the ids; the spawned ids are a prefix of the ids, each once. */
  ghost predicate Partitioned(w: Window, ids: seq<TraceId>) {
    Suffix(w.pending, ids) && Cover(w.inFlight, w.joined, Spawned(w.pending, ids))
  }

  predicate Suffix(pending: seq<TraceId>, ids: seq<TraceId>) {
    |pending| <= |ids| && pending == ids[|ids| - |pending|..]
  }

  function Spawned(pending: seq<TraceId>, ids: seq<TraceId>): set<TraceId>
    requires |pending| <= |ids|
  {
    Members(ids[..|ids| - |pending|])
  }

  predicate Cover(inFlight: set<TraceId>, joined: set<TraceId>, spawned: set<TraceId>) {
    inFlight + joined == spawned && inFlight !! joined
  }

  /** At most `concurrency` fetches are in flight, and exactly that many while ids are pending. */
  ghost predicate Windowed(w: Window, concurrency: nat) {
    |w.inFlight| <= concurrency && (w.pending != [] ==> |w.inFlight| == concurrency)
  }

  ghost predicate Conserved(w: Window, ids: seq<TraceId>, concurrency: nat, fetch: TraceId -> Fetch) {
    Partitioned(w, ids) && Windowed(w, concurrency) && w.results == Trees(w.joined, fetch)
  }

  lemma {:induction false} SpawnPartitions(w: Window, ids: seq<TraceId>)
    requires Distinct(ids) && w.pending != [] && Partitioned(w, ids)
    ensures Partitioned(Spawn(w), ids) && |Spawn(w).inFlight| == |w.inFlight| + 1
  {
    var n := |ids| - |w.pending|;
    assert w.pending[0] == ids[n];
    assert ids[..n + 1] == ids[..n] + [ids[n]];
    assert Members(ids[..n + 1]) == Members(ids[..n]) + {ids[n]};
    assert ids[n] !in Members(ids[..n]);
  }

  lemma JoinMovesOne(inFlight: set<TraceId>, joined: set<TraceId>, spawned: set<TraceId>, id: TraceId)
    requires Cover(inFlight, joined, spawned) && id in inFlight
    ensures Cover(inFlight - {id}, joined + {id}, spawned)
    ensures |inFlight - {id}| == |inFlight| - 1 && |joined + {id}| == |joined| + 1
  {
    assert id !in joined;
    assert (inFlight - {id}) + (joined + {id}) == inFlight + joined;
  }

  lemma JoinKeepsPartition(w: Window, id: TraceId, ids: seq<TraceId>, fetch: TraceId -> Fetch)
    requires Partitioned(w, ids) && id in w.inFlight
    ensures var j := Join(w, id, fetch);
            Partitioned(j, ids) && |j.inFlight| == |w.inFlight| - 1 && |j.joined| == |w.joined| + 1
  {
    JoinMovesOne(w.inFlight, w.joined, Spawned(w.pending, ids), id);
  }

  lemma JoinKeeps(w: Window, id: TraceId, ids: seq<TraceId>, fetch: TraceId -> Fetch)
    requires Partitioned(w, ids) && w.results == Trees(w.joined, fetch) && id in w.inFlight
    ensures var j := Join(w, id, fetch);
            && Partitioned(j, ids) && j.results == Trees(j.joined, fetch)
            && |j.inFlight| == |w.inFlight| - 1 && |j.joined| == |w.joined| + 1
  {
    JoinKeepsPartition(w, id, ids, fetch);
    JoinRecords(w.joined, id, fetch);
  }

  lemma JoinRecords(joined: set<TraceId>, id: TraceId, fetch: TraceId -> Fetch)
    ensures Recorded(Trees(joined, fetch), id, fetch(id)) == Trees(joined + {id}, fetch)
  {
  }

  lemma {:induction false} StepConserves(w: Window, w': Window, ids: seq<TraceId>, concurrency: nat,
                                         fetch: TraceId -> Fetch)
    requires Distinct(ids) && Conserved(w, ids, concurrency, fetch) && Step(w, w', fetch)
    ensures Conserved(w', ids, concurrency, fetch) && |w'.joined| == |w.joined| + 1
  {
    var id :| id in w.inFlight && w' == Refill(Join(w, id, fetch));
    JoinKeeps(w, id, ids, fetch);
    if w.pending != [] {
      SpawnPartitions(Join(w, id, fetch), ids);
    }
  }

  /** Every window of every run: the partition, the bound on fetches in flight, and a map that holds exactly
      the joined successes. Each step joins one more id. */
  lemma {:induction false} RunConserves(run: seq<Window>, ids: seq<TraceId>, concurrency: nat,
                                        fetch: TraceId -> Fetch, i: nat)
    requires Distinct(ids) && IsRun(run, ids, concurrency, fetch) && i < |run|
    ensures Conserved(run[i], ids, concurrency, fetch) && |run[i].joined| == i
  {
    if i == 0 {
      BeginConserves(ids, concurrency, fetch);
    } else {
      RunConserves(run, ids, concurrency, fetch, i - 1);
      StepConserves(run[i - 1], run[i], ids, concurrency, fetch);
    }
  }

  lemma BeginConserves(ids: seq<TraceId>, concurrency: nat, fetch: TraceId -> Fetch)
    requires Distinct(ids)
    ensures Conserved(Begin(ids, concurrency), ids, concurrency, fetch) && Begin(ids, concurrency).joined == {}
  {
    var w := Begin(ids, concurrency);
    MembersOfDistinct(ids[..|ids| - |w.pending|]);
    assert w.results == Trees({}, fetch);
  }

  lemma {:induction false} MembersOfDistinct(ids: seq<TraceId>)
    requires Distinct(ids)
    ensures |Members(ids)| == |ids|
  {
    if ids != [] {
      var n := |ids| - 1;
      MembersOfDistinct(ids[..n]);
      assert Members(ids) == Members(ids[..n]) + {ids[n]};
    }
  }

  /** Each pass of the loop leaves less to do. */
  lemma JoinShrinks(w: Window, ids: seq<TraceId>, fetch: TraceId -> Fetch, id: TraceId)
    requires Distinct(ids) && Partitioned(w, ids) && w.results == Trees(w.joined, fetch) && id in w.inFlight
    ensures var w' := Refill(Join(w, id, fetch));
            |w'.pending| + |w'.inFlight| < |w.pending| + |w.inFlight|
  {
    JoinKeeps(w, id, ids, fetch);
    if w.pending != [] {
      SpawnPartitions(Join(w, id, fetch), ids);
    }
  }

  lemma ExtendRun(run: seq<Window>, ids: seq<TraceId>, concurrency: nat, fetch: TraceId -> Fetch, w': Window)
    requires IsRun(run, ids, concurrency, fetch) && Step(run[|run| - 1], w', fetch)
    ensures IsRun(run + [w'], ids, concurrency, fetch)
  {
    var longer := run + [w'];
    forall i | 0 <= i < |longer| - 1
      ensures Step(longer[i], longer[i + 1], fetch)
    {
      if i < |run| - 1 {
        assert longer[i] == run[i] && longer[i + 1] == run[i + 1];
      } else {
        assert longer[i] == run[|run| - 1] && longer[i + 1] == w';
      }
    }
  }

  lemma OnePass(run: seq<Window>, ids: seq<TraceId>, concurrency: nat, fetch: TraceId -> Fetch, id: TraceId)
    requires Distinct(ids) && IsRun(run, ids, concurrency, fetch) && id in run[|run| - 1].inFlight
    ensures var w' := Refill(Join(run[|run| - 1], id, fetch));
            && IsRun(run + [w'], ids, concurrency, fetch)
            && |w'.pending| + |w'.inFlight| < |run[|run| - 1].pending| + |run[|run| - 1].inFlight|
  {
    var w := run[|run| - 1];
    RunConserves(run, ids, concurrency, fetch, |run| - 1);
    JoinShrinks(w, ids, fetch, id);
    var w' := Refill(Join(w, id, fetch));
    assert Step(w, w', fetch);
    ExtendRun(run, ids, concurrency, fetch, w');
  }

  /** A run that stopped with nothing in flight has joined every id, after exactly one step per id, and its
      map does not depend on the order of completion. */
  lemma {:induction false} CompleteRunIsExact(run: seq<Window>, ids: seq<TraceId>, concurrency: nat,
                                              fetch: TraceId -> Fetch)
    requires Distinct(ids) && concurrency > 0
    requires IsRun(run, ids, concurrency, fetch) && run[|run| - 1].inFlight == {}
    ensures var last := run[|run| - 1];
            && last.pending == [] && last.joined == Members(ids)
            && last.results == Trees(Members(ids), fetch)
            && |run| == |ids| + 1
  {
    RunConserves(run, ids, concurrency, fetch, |run| - 1);
    MembersOfDistinct(ids);
    var last := run[|run| - 1];
    assert last.pending == [];
    assert ids[..|ids|] == ids;
    assert last.inFlight + last.joined == last.joined;
  }

  lemma EmptyWindowNeverMoves(run: seq<Window>, ids: seq<TraceId>, fetch: TraceId -> Fetch)
    requires Distinct(ids) && IsRun(run, ids, 0, fetch)
    ensures |run| == 1 && run[0].results == map[]
  {
    BeginConserves(ids, 0, fetch);
    assert run[0].inFlight == {};
    assert |run| > 1 ==> Step(run[0], run[1], fetch);
  }

  /** No run stalls: a concurrency of at least one leaves nothing unfetched. A concurrency of zero, which the
      signature admits and no caller passes (the only one passes 16), answers with an empty map. */
  lemma {:induction false} ExactIffConcurrent(run: seq<Window>, ids: seq<TraceId>, concurrency: nat,
                                              fetch: TraceId -> Fetch)
    requires Distinct(ids)
    requires IsRun(run, ids, concurrency, fetch) && run[|run| - 1].inFlight == {}
    ensures (run[|run| - 1].results == Trees(Members(ids), fetch))
        <==> (concurrency > 0 || (forall id :: id in ids ==> !fetch(id).Tree?))
  {
    RunConserves(run, ids, concurrency, fetch, |run| - 1);
    if concurrency > 0 {
      CompleteRunIsExact(run, ids, concurrency, fetch);
    } else {
      EmptyWindowNeverMoves(run, ids, fetch);
      var all := Trees(Members(ids), fetch);
      assert all == map[] <==> all.Keys == {};
      if all != map[] {
        var id :| id in all.Keys;
        assert id in ids && fetch(id).Tree?;
      } else {
        forall id | id in ids ensures !fetch(id).Tree? { assert id !in all.Keys; }
      }
    }
  }
}
