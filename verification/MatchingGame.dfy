/** The matching game: who waits for which number, and who got matched. The trie is a map. */
module MatchingGame {
  import opened Api
  import opened Sums

  datatype GameRequest = SubmitNumber(address: Address, number: U64) | CancelNumber(address: Address, number: U64)

  datatype Match = Match(user1: Address, user2: Address)

  type Game = map<U64, seq<Address>>

  // None stands for the panic on cancelling somebody who does not wait.
  datatype Applied = Applied(game: Game, matches: seq<Match>)

  function Find(list: seq<Address>, a: Address): (i: Option<nat>)
    ensures i.Some? ==> i.value < |list| && list[i.value] == a
    ensures i.None? ==> a !in list
  {
    if list == [] then None
    else if list[0] == a then Some(0)
    else
      var i := Find(list[1..], a);
      if i.None? then None else Some(i.value + 1)
  }

  function ApplyOne(game: Game, r: GameRequest): Option<Applied> {
    match r
    case SubmitNumber(a, n) =>
      if n !in game then Some(Applied(game[n := [a]], []))
      else if game[n] == [] then Some(Applied(game[n := [a]], []))
      else Some(Applied(game[n := game[n][1..]], [Match(game[n][0], a)]))
    case CancelNumber(a, n) =>
      if n !in game then Some(Applied(game, []))
      else
        var i := Find(game[n], a);
        if i.None? then None
        else Some(Applied(game[n := game[n][..i.value] + game[n][i.value + 1..]], []))
  }

  function Apply(game: Game, requests: seq<GameRequest>): Option<Applied> {
    if requests == [] then Some(Applied(game, []))
    else
      var before := Apply(game, requests[..|requests| - 1]);
      if before.None? then None
      else
        var now := ApplyOne(before.value.game, requests[|requests| - 1]);
        if now.None? then None else Some(Applied(now.value.game, before.value.matches + now.value.matches))
  }

  /** `apply_requests` on a trie held in a map. */
  method ApplyRequests(trie: Game, requests: seq<GameRequest>) returns (applied: Option<Applied>)
    ensures applied == Apply(trie, requests)
  {
    var txn, matches := trie, [];
    var k := 0;
    while k < |requests|
      invariant k <= |requests| && Apply(trie, requests[..k]) == Some(Applied(txn, matches))
    {
      assert requests[..k + 1][..k] == requests[..k] && matches + [] == matches;
      match requests[k] {
        case SubmitNumber(address, number) =>
          if number in txn {
            var oldList := txn[number];
            if oldList == [] {
              oldList := [address];
            } else {
              matches := matches + [Match(oldList[0], address)];
              oldList := oldList[1..];
            }
            txn := txn[number := oldList];
          } else {
            txn := txn[number := [address]];
          }
        case CancelNumber(address, number) =>
          if number in txn {
            var i := Find(txn[number], address);
            if i.None? {
              PanicStays(trie, requests, k + 1);
              return None;
            }
            txn := txn[number := txn[number][..i.value] + txn[number][i.value + 1..]];
          }
      }
      k := k + 1;
    }
    assert requests[..k] == requests;
    applied := Some(Applied(txn, matches));
  }

  lemma {:induction false} PanicStays(game: Game, requests: seq<GameRequest>, k: nat)
    requires k <= |requests| && Apply(game, requests[..k]) == None
    ensures Apply(game, requests) == None
  {
    var n := |requests|;
    if k < n {
      assert requests[..n - 1][..k] == requests[..k];
      PanicStays(game, requests[..n - 1], k);
    } else {
      assert requests[..k] == requests;
    }
  }

  // ---- A batch at once is its requests one by one ----

  function Then(first: Option<Applied>, requests: seq<GameRequest>): Option<Applied> {
    if first.None? then None
    else
      var more := Apply(first.value.game, requests);
      if more.None? then None else Some(Applied(more.value.game, first.value.matches + more.value.matches))
  }

  /** Applying two ranges in turn is applying them at once, matches in the same order. */
  lemma {:induction false} ApplyAppend(game: Game, xs: seq<GameRequest>, ys: seq<GameRequest>)
    ensures Apply(game, xs + ys) == Then(Apply(game, xs), ys)
  {
    hide ApplyOne;
    if ys == [] {
      assert xs + ys == xs;
      var first := Apply(game, xs);
      assert first.Some? ==> first.value.matches + [] == first.value.matches;
    } else {
      var n := |ys| - 1;
      ApplyAppend(game, xs, ys[..n]);
      assert (xs + ys)[..|xs + ys| - 1] == xs + ys[..n];
      var first := Apply(game, xs);
      if first.Some? {
        var more := Apply(first.value.game, ys[..n]);
        if more.Some? {
          var last := ApplyOne(more.value.game, ys[n]);
          if last.Some? {
            assert first.value.matches + more.value.matches + last.value.matches
                == first.value.matches + (more.value.matches + last.value.matches);
          }
        }
      }
    }
  }

  // ---- Conservation ----

  ghost function Lengths(game: Game): U64 -> int {
    (n: U64) => if n in game.Keys then |game[n]| else 0
  }

  /** How many addresses wait, over all numbers. */
  ghost function Waiting(game: Game): int {
    Sum(game.Keys, Lengths(game))
  }

  function Submits(requests: seq<GameRequest>): int {
    if requests == [] then 0
    else Submits(requests[..|requests| - 1]) + if requests[|requests| - 1].SubmitNumber? then 1 else 0
  }

  /** Cancels that took somebody off a list. */
  function Cancels(game: Game, requests: seq<GameRequest>): int {
    if requests == [] then 0
    else
      var before := Apply(game, requests[..|requests| - 1]);
      var last := requests[|requests| - 1];
      Cancels(game, requests[..|requests| - 1])
        + if before.Some? && last.CancelNumber? && last.number in before.value.game then 1 else 0
  }

  lemma ListChange(game: Game, n: U64, list: seq<Address>)
    ensures Waiting(game[n := list]) == Waiting(game) - (if n in game.Keys then |game[n]| else 0) + |list|
  {
    var game' := game[n := list];
    if n in game.Keys {
      assert game'.Keys == game.Keys;
      SumShift(game.Keys, Lengths(game), Lengths(game'), n, |list| - |game[n]|);
    } else {
      SumPick(game'.Keys, Lengths(game'), n);
      assert game'.Keys - {n} == game.Keys;
      SumSame(game.Keys, Lengths(game), Lengths(game'));
    }
  }

  lemma OneConserves(game: Game, r: GameRequest)
    requires ApplyOne(game, r).Some?
    ensures var applied := ApplyOne(game, r).value;
      Waiting(applied.game) + 2 * |applied.matches|
        == Waiting(game) + (if r.SubmitNumber? then 1 else 0) - (if r.CancelNumber? && r.number in game then 1 else 0)
  {
    hide Waiting;
    match r
    case SubmitNumber(a, n) =>
      ListChange(game, n, if n in game && game[n] != [] then game[n][1..] else [a]);
    case CancelNumber(a, n) =>
      if n in game {
        var i := Find(game[n], a).value;
        ListChange(game, n, game[n][..i] + game[n][i + 1..]);
      }
  }

  ghost predicate AtMostOne(game: Game) {
    forall n :: n in game.Keys ==> |game[n]| <= 1
  }

  /** From the empty trie, in every run without the panic: nobody shares a waiting list, and
      everybody who submitted is matched, was taken off, or still waits. */
  lemma {:induction false} EveryoneAccountedFor(requests: seq<GameRequest>)
    requires Apply(map[], requests).Some?
    ensures var applied := Apply(map[], requests).value;
      && AtMostOne(applied.game)
      && Submits(requests) == 2 * |applied.matches| + Cancels(map[], requests) + Waiting(applied.game)
  {
    hide Waiting, ApplyOne;
    if requests == [] {
      NobodyWaits();
    } else {
      var n := |requests| - 1;
      EveryoneAccountedFor(requests[..n]);
      var before := Apply(map[], requests[..n]).value;
      OneConserves(before.game, requests[n]);
      OneKeepsLists(before.game, requests[n]);
    }
  }

  lemma NobodyWaits()
    ensures Waiting(map[]) == 0
  {
  }

  lemma OneKeepsLists(game: Game, r: GameRequest)
    requires AtMostOne(game) && ApplyOne(game, r).Some?
    ensures AtMostOne(ApplyOne(game, r).value.game)
  {
  }

  /** A cancel panics exactly when its number has an entry in which its user does not wait. */
  lemma PanicIff(game: Game, r: GameRequest)
    ensures ApplyOne(game, r).None? <==> r.CancelNumber? && r.number in game && r.address !in game[r.number]
  {
  }

  /** The entry of a cancelled number stays behind, so cancelling it again panics. */
  lemma DoubleCancelPanics(a: Address, n: U64)
    ensures Apply(map[], [SubmitNumber(a, n)] + [CancelNumber(a, n)] + [CancelNumber(a, n)]).None?
  {
    var submit, cancel := SubmitNumber(a, n), CancelNumber(a, n);
    ApplyAppend(map[], [submit] + [cancel], [cancel]);
    ApplyAppend(map[], [submit], [cancel]);
    ApplyOneRequest(map[], submit);
    ApplyOneRequest(map[n := [a]], cancel);
    assert [a][..0] + [a][1..] == [];
    ApplyOneRequest(map[n := []], cancel);
    assert map[n := [a]][n := []] == map[n := []];
  }

  lemma ApplyOneRequest(game: Game, r: GameRequest)
    ensures Apply(game, [r]) == ApplyOne(game, r)
  {
    assert [r][..0] == [];
    var now := ApplyOne(game, r);
    assert now.Some? ==> [] + now.value.matches == now.value.matches;
  }

  // ---- Engine and batcher ----

  // The engine applies one request at a time, the batcher everything since its last batch.
  datatype Server = Server(
    requests: seq<GameRequest>,    // processed, by index
    engine: Game, engineMatches: seq<Match>,
    nextBatch: nat, batcher: Game, batcherMatches: seq<Match>)

  const NEW_SERVER := Server([], map[], [], 1, map[], [])

  datatype ServerEvent = EngineTurn(request: GameRequest) | BatcherTurn

  /** A panicking request is never processed; a batch may panic as well. */
  ghost predicate CanTurn(s: Server, e: ServerEvent) {
    match e
    case EngineTurn(r) => ApplyOne(s.engine, r).Some?
    case BatcherTurn => s.nextBatch <= |s.requests|
  }

  ghost function Turn(s: Server, e: ServerEvent): Option<Server> {
    match e
    case EngineTurn(r) =>
      var now := ApplyOne(s.engine, r);
      if now.None? then None
      else Some(s.(requests := s.requests + [r], engine := now.value.game,
                   engineMatches := s.engineMatches + now.value.matches))
    case BatcherTurn =>
      if s.nextBatch == 0 || s.nextBatch > |s.requests| then Some(s)
      else
        var now := Apply(s.batcher, s.requests[s.nextBatch - 1..]);
        if now.None? then None
        else Some(s.(nextBatch := |s.requests| + 1, batcher := now.value.game,
                     batcherMatches := s.batcherMatches + now.value.matches))
  }

  ghost predicate ServerOk(s: Server) {
    && 1 <= s.nextBatch <= |s.requests| + 1
    && Apply(map[], s.requests) == Some(Applied(s.engine, s.engineMatches))
    && Apply(map[], s.requests[..s.nextBatch - 1]) == Some(Applied(s.batcher, s.batcherMatches))
  }

  /** The batcher never panics on what the engine has processed, and both keep in step. */
  lemma TurnOk(s: Server, e: ServerEvent)
    requires ServerOk(s) && CanTurn(s, e)
    ensures Turn(s, e).Some? && ServerOk(Turn(s, e).value)
  {
    hide ApplyOne, Apply;
    match e
    case EngineTurn(r) =>
      var requests' := s.requests + [r];
      ApplyAppend(map[], s.requests, [r]);
      ApplyOneRequest(s.engine, r);
      assert requests'[..s.nextBatch - 1] == s.requests[..s.nextBatch - 1];
    case BatcherTurn =>
      var done, rest := s.requests[..s.nextBatch - 1], s.requests[s.nextBatch - 1..];
      assert s.requests == done + rest;
      ApplyAppend(map[], done, rest);
      assert s.requests[..|s.requests|] == s.requests;
  }

  ghost function ServerAfter(events: seq<ServerEvent>): Option<Server> {
    if events == [] then Some(NEW_SERVER)
    else
      var before := ServerAfter(events[..|events| - 1]);
      if before.None? then None else Turn(before.value, events[|events| - 1])
  }

  ghost predicate ServerRuns(events: seq<ServerEvent>) {
    events == [] ||
    var before := events[..|events| - 1];
    && ServerRuns(before)
    && (ServerAfter(before).Some? ==> CanTurn(ServerAfter(before).value, events[|events| - 1]))
  }

  lemma {:induction false} ServerAlwaysOk(events: seq<ServerEvent>)
    requires ServerRuns(events)
    ensures ServerAfter(events).Some? && ServerOk(ServerAfter(events).value)
  {
    hide Turn, CanTurn, ServerOk;
    if events == [] {
      NewServerOk();
    } else {
      var n := |events| - 1;
      ServerAlwaysOk(events[..n]);
      TurnOk(ServerAfter(events[..n]).value, events[n]);
    }
  }

  lemma NewServerOk()
    ensures ServerOk(NEW_SERVER)
  {
  }

  /** A turn of the batcher takes everything processed, so that afterwards it is level with
      the engine. */
  lemma {:induction false} BatcherCatchesUp(events: seq<ServerEvent>)
    requires ServerRuns(events) && events != [] && events[|events| - 1] == BatcherTurn
    ensures ServerAfter(events).Some?
    ensures var s := ServerAfter(events).value;
      s.nextBatch == |s.requests| + 1 && s.batcher == s.engine && s.batcherMatches == s.engineMatches
  {
    hide Apply, ApplyOne;
    var n := |events| - 1;
    ServerAlwaysOk(events[..n]);
    TurnOk(ServerAfter(events[..n]).value, BatcherTurn);
    var s := ServerAfter(events).value;
    assert s.requests[..|s.requests|] == s.requests;
  }

  /** At equal indices engine and batcher have the same trie, hence the same root, and have
      made the same matches; a batch never panics. */
  lemma EngineAndBatcherAgree<R>(events: seq<ServerEvent>, root: Game -> R)
    requires ServerRuns(events)
    ensures ServerAfter(events).Some?
    ensures var s := ServerAfter(events).value;
      s.nextBatch == |s.requests| + 1 ==>
        root(s.batcher) == root(s.engine) && s.batcherMatches == s.engineMatches
  {
    hide Turn, CanTurn, Apply;
    ServerAlwaysOk(events);
    var s := ServerAfter(events).value;
    assert s.requests[..|s.requests|] == s.requests;
  }
}
