/** Who is matched with whom in the matching game, address by address. */
module MatchPairs {
  import opened Api
  import opened Sums
  import opened MatchingGame

  // ---- Every address accounted for ----

  function WaitingUnder(game: Game, n: U64): seq<Address> {
    if n in game then game[n] else []
  }

  ghost function PlacesUnder(game: Game, a: Address): U64 -> int {
    (n: U64) => multiset(WaitingUnder(game, n))[a]
  }

  /** In how many places an address waits. */
  ghost function Places(game: Game, a: Address): int {
    Sum(game.Keys, PlacesUnder(game, a))
  }

  /** How often an address occurs in the matches, on either side. */
  function MatchedTimes(matches: seq<Match>, a: Address): int {
    if matches == [] then 0
    else
      var last := matches[|matches| - 1];
      MatchedTimes(matches[..|matches| - 1], a) + (if last.user1 == a then 1 else 0) + if last.user2 == a then 1 else 0
  }

  function SubmitsBy(requests: seq<GameRequest>, a: Address): int {
    if requests == [] then 0
    else
      var last := requests[|requests| - 1];
      SubmitsBy(requests[..|requests| - 1], a) + if last.SubmitNumber? && last.address == a then 1 else 0
  }

  /** The cancels of an address that met an entry, and so took it off a list. */
  function CancelsBy(game: Game, requests: seq<GameRequest>, a: Address): int {
    if requests == [] then 0
    else
      var before, last := Apply(game, requests[..|requests| - 1]), requests[|requests| - 1];
      CancelsBy(game, requests[..|requests| - 1], a)
        + if before.Some? && last.CancelNumber? && last.address == a && last.number in before.value.game then 1 else 0
  }

  lemma {:induction false} MatchedAppend(xs: seq<Match>, ys: seq<Match>, a: Address)
    ensures MatchedTimes(xs + ys, a) == MatchedTimes(xs, a) + MatchedTimes(ys, a)
  {
    if ys == [] {
      assert xs + ys == xs;
    } else {
      var n := |ys| - 1;
      MatchedAppend(xs, ys[..n], a);
      assert (xs + ys)[..|xs + ys| - 1] == xs + ys[..n];
    }
  }

  lemma PlacesChange(game: Game, n: U64, list: seq<Address>, a: Address)
    ensures Places(game[n := list], a) == Places(game, a) - multiset(WaitingUnder(game, n))[a] + multiset(list)[a]
  {
    var game' := game[n := list];
    if n in game.Keys {
      assert game'.Keys == game.Keys;
      SumShift(game.Keys, PlacesUnder(game, a), PlacesUnder(game', a), n,
               multiset(list)[a] as int - multiset(WaitingUnder(game, n))[a] as int);
    } else {
      SumPick(game'.Keys, PlacesUnder(game', a), n);
      assert game'.Keys - {n} == game.Keys;
      SumSame(game.Keys, PlacesUnder(game, a), PlacesUnder(game', a));
    }
  }

  /** A submit is matched with the first address waiting under its number, which leaves the
      list; with nobody there it waits itself. */
  lemma SubmitTells(game: Game, a: Address, n: U64)
    ensures var waiting := WaitingUnder(game, n);
      ApplyOne(game, SubmitNumber(a, n)) ==
        if waiting == [] then Some(Applied(game[n := [a]], []))
        else Some(Applied(game[n := waiting[1..]], [Match(waiting[0], a)]))
  {
  }

  lemma RemoveCounts(list: seq<Address>, i: nat, a: Address)
    requires i < |list|
    ensures multiset(list[..i] + list[i + 1..])[a] == multiset(list)[a] - if list[i] == a then 1 else 0
  {
    assert list == list[..i] + [list[i]] + list[i + 1..];
  }

  lemma OneMatched(m: Match, a: Address)
    ensures MatchedTimes([m], a) == (if m.user1 == a then 1 else 0) + if m.user2 == a then 1 else 0
  {
    assert [m][..0] == [];
  }

  lemma {:induction false} OneAccounts(game: Game, r: GameRequest, a: Address)
    requires ApplyOne(game, r).Some?
    ensures var applied := ApplyOne(game, r).value;
      Places(applied.game, a) + MatchedTimes(applied.matches, a)
        == Places(game, a) + (if r.SubmitNumber? && r.address == a then 1 else 0)
             - (if r.CancelNumber? && r.address == a && r.number in game then 1 else 0)
  {
    hide ApplyOne, Places, MatchedTimes;
    match r
    case SubmitNumber(b, n) =>
      SubmitAccounts(game, b, n, a);
    case CancelNumber(b, n) =>
      CancelAccounts(game, b, n, a);
  }

  lemma SubmitAccounts(game: Game, b: Address, n: U64, a: Address)
    ensures var applied := ApplyOne(game, SubmitNumber(b, n)).value;
      Places(applied.game, a) + MatchedTimes(applied.matches, a) == Places(game, a) + if b == a then 1 else 0
  {
    hide ApplyOne, Places;
    var waiting := WaitingUnder(game, n);
    SubmitTells(game, b, n);
    if waiting == [] {
      PlacesChange(game, n, [b], a);
    } else {
      PlacesChange(game, n, waiting[1..], a);
      FirstCounts(waiting, a);
      OneMatched(Match(waiting[0], b), a);
    }
  }

  lemma FirstCounts(list: seq<Address>, a: Address)
    requires list != []
    ensures multiset(list[1..])[a] == multiset(list)[a] - if list[0] == a then 1 else 0
  {
    assert list == [list[0]] + list[1..];
  }

  lemma CancelAccounts(game: Game, b: Address, n: U64, a: Address)
    requires ApplyOne(game, CancelNumber(b, n)).Some?
    ensures var applied := ApplyOne(game, CancelNumber(b, n)).value;
      Places(applied.game, a) + MatchedTimes(applied.matches, a)
        == Places(game, a) - if b == a && n in game then 1 else 0
  {
    hide Places;
    if n in game {
      var i := Find(game[n], b).value;
      RemoveCounts(game[n], i, a);
      PlacesChange(game, n, game[n][..i] + game[n][i + 1..], a);
    }
  }

  /** From any trie, in every run without the panic, for each address: the places it had and
      its submits are its occurrences in the matches, its effective cancels and the places
      it has. */
  lemma {:induction false} AddressAccountedFor(game: Game, requests: seq<GameRequest>, a: Address)
    requires Apply(game, requests).Some?
    ensures var applied := Apply(game, requests).value;
      Places(game, a) + SubmitsBy(requests, a)
        == MatchedTimes(applied.matches, a) + CancelsBy(game, requests, a) + Places(applied.game, a)
  {
    hide Places, ApplyOne;
    if requests != [] {
      var n := |requests| - 1;
      AddressAccountedFor(game, requests[..n], a);
      var before := Apply(game, requests[..n]).value;
      OneAccounts(before.game, requests[n], a);
      MatchedAppend(before.matches, ApplyOne(before.game, requests[n]).value.matches, a);
    }
  }

  // ---- The two submits of a match ----

  // Request j submits n for this address, and nothing after it is about n.
  ghost predicate SubmittedLast(requests: seq<GameRequest>, a: Address, n: U64, j: nat) {
    && j < |requests| && requests[j] == SubmitNumber(a, n)
    && forall k :: j < k < |requests| ==> requests[k].number != n
  }

  // The list of a number changes only by requests about it.
  lemma OtherNumber(game: Game, r: GameRequest, n: U64)
    requires ApplyOne(game, r).Some? && r.number != n
    ensures WaitingUnder(ApplyOne(game, r).value.game, n) == WaitingUnder(game, n)
  {
  }

  lemma ThisNumber(game: Game, r: GameRequest)
    requires ApplyOne(game, r).Some? && AtMostOne(game)
    requires WaitingUnder(ApplyOne(game, r).value.game, r.number) != []
    ensures r.SubmitNumber? && WaitingUnder(ApplyOne(game, r).value.game, r.number) == [r.address]
  {
  }

  /** Whoever waits under a number submitted it in the last request about that number. */
  lemma {:induction false} WaitsSince(requests: seq<GameRequest>, n: U64) returns (j: nat)
    requires Apply(map[], requests).Some? && WaitingUnder(Apply(map[], requests).value.game, n) != []
    ensures j < |requests| && SubmittedLast(requests, requests[j].address, n, j)
    ensures WaitingUnder(Apply(map[], requests).value.game, n) == [requests[j].address]
  {
    hide ApplyOne, WaitingUnder;
    NobodyThere(n);
    var before, last := requests[..|requests| - 1], requests[|requests| - 1];
    var game := Apply(map[], before).value.game;
    EveryoneAccountedFor(before);
    if last.number == n {
      ThisNumber(game, last);
      j := |requests| - 1;
    } else {
      OtherNumber(game, last, n);
      j := WaitsSince(before, n);
      assert forall k :: 0 <= k < |before| ==> requests[k] == before[k];
    }
  }

  lemma NobodyThere(n: U64)
    ensures WaitingUnder(map[], n) == []
  {
  }

  /** The two requests behind a match: the first submits a number for user1, the second the
      same number for user2, and none in between is about that number. It is the match that
      the second one makes. */
  ghost predicate Pairs(requests: seq<GameRequest>, i: nat, m: Match, j: nat, k: nat) {
    && j < k < |requests|
    && requests[j].SubmitNumber? && requests[j].address == m.user1
    && requests[k] == SubmitNumber(m.user2, requests[j].number)
    && (forall h :: j < h < k ==> requests[h].number != requests[j].number)
    && Apply(map[], requests[..k]).Some? && |Apply(map[], requests[..k]).value.matches| == i
  }

  lemma {:induction false} PairOf(requests: seq<GameRequest>, i: nat) returns (j: nat, k: nat)
    requires Apply(map[], requests).Some? && i < |Apply(map[], requests).value.matches|
    ensures Pairs(requests, i, Apply(map[], requests).value.matches[i], j, k)
  {
    hide ApplyOne;
    var n := |requests| - 1;
    var before, last := Apply(map[], requests[..n]).value, requests[n];
    if i < |before.matches| {
      j, k := PairOf(requests[..n], i);
      assert requests[..n][..k] == requests[..k];
    } else {
      MatchesBySubmit(before.game, last);
      j := WaitsSince(requests[..n], last.number);
      k := n;
    }
  }

  lemma MatchesBySubmit(game: Game, r: GameRequest)
    requires ApplyOne(game, r).Some? && ApplyOne(game, r).value.matches != []
    ensures r.SubmitNumber? && WaitingUnder(game, r.number) != []
    ensures ApplyOne(game, r).value.matches == [Match(WaitingUnder(game, r.number)[0], r.address)]
  {
  }

  /** Every match of a run is between the submitter of a number and the one who submitted
      the same number last before, who had not been matched or taken off since. */
  lemma {:induction false} EveryMatchPairs(requests: seq<GameRequest>, i: nat)
    requires Apply(map[], requests).Some? && i < |Apply(map[], requests).value.matches|
    ensures exists j, k :: Pairs(requests, i, Apply(map[], requests).value.matches[i], j, k)
  {
    hide Pairs;
    var j, k := PairOf(requests, i);
  }
}
