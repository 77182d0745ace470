/**
 * One room of the in-memory store: its players in join order, the pending
 * moves and the score table, with the changes the socket handlers make to a
 * room written as functions of the room they start from.
 *
 * Some lemmas here that make no recursive call carry `{:induction false}`
 * all the same: it stops Dafny from adding induction hypotheses of its own
 * to their proof obligations, which keeps those proofs within the solver's
 * resource budget.
 */
module Rooms {
  import opened Wrappers
  import opened Rules
  import opened Text

  /** A socket id, assigned by the transport and never reused. */
  type Id = string

  /** A room code, as normalised by `join_room`. */
  type Code = string

  datatype Player = Player(name: string, ready: bool)

  datatype Score = Score(wins: nat, losses: nat, ties: nat)

  const Zero := Score(0, 0, 0)

  /** Rounds a score entry has recorded. */
  function Total(s: Score): nat
  {
    s.wins + s.losses + s.ties
  }

  /** One entry of the insertion-ordered `players` map. */
  type Entry = (Id, Player)

  datatype Room = Room(players: seq<Entry>, moves: map<Id, Move>, score: map<Id, Score>)

  /** A freshly created room: no players, no pending moves, no score entries. */
  const EmptyRoom := Room([], map[], map[])

  // ---- The insertion-ordered players map ----

  /** The keys of the players map, in insertion order. */
  function Ids(ps: seq<Entry>): (r: seq<Id>)
    ensures |r| == |ps|
    ensures forall i :: 0 <= i < |ps| ==> r[i] == ps[i].0
  {
    if ps == [] then [] else [ps[0].0] + Ids(ps[1..])
  }

  /** No key occurs twice. */
  predicate Distinct(ps: seq<Entry>)
  {
    ps == [] || (ps[0].0 !in Ids(ps[1..]) && Distinct(ps[1..]))
  }

  /** `players.get(id)`. */
  function Lookup(ps: seq<Entry>, id: Id): (r: Option<Player>)
    ensures r.Some? <==> id in Ids(ps)
  {
    if ps == [] then None
    else if ps[0].0 == id then Some(ps[0].1)
    else Lookup(ps[1..], id)
  }

  /**
   * `players.set(id, p)`: a present key keeps its position and takes the new
   * value, an absent key is appended.
   */
  function Put(ps: seq<Entry>, id: Id, p: Player): (r: seq<Entry>)
    ensures Ids(r) == if id in Ids(ps) then Ids(ps) else Ids(ps) + [id]
    ensures Lookup(r, id) == Some(p)
    ensures forall q :: q != id ==> Lookup(r, q) == Lookup(ps, q)
    ensures Distinct(ps) ==> Distinct(r)
  {
    if ps == [] then [(id, p)]
    else if ps[0].0 == id then [(id, p)] + ps[1..]
    else [ps[0]] + Put(ps[1..], id, p)
  }

  /** Setting a key to the value it already has changes nothing. */
  lemma {:induction false} PutTwice(ps: seq<Entry>, id: Id, p: Player)
    ensures Put(Put(ps, id, p), id, p) == Put(ps, id, p)
  {
    if ps != [] && ps[0].0 != id {
      PutTwice(ps[1..], id, p);
      assert Put(ps, id, p)[1..] == Put(ps[1..], id, p);
    }
  }

  /** `players.delete(id)`. */
  function Delete(ps: seq<Entry>, id: Id): (r: seq<Entry>)
    ensures |r| == if id in Ids(ps) then |ps| - 1 else |ps|
    ensures forall q :: q in Ids(r) ==> q in Ids(ps)
    ensures forall q :: q != id ==> Lookup(r, q) == Lookup(ps, q)
    ensures Distinct(ps) ==> Distinct(r) && id !in Ids(r)
  {
    if ps == [] then []
    else if ps[0].0 == id then ps[1..]
    else [ps[0]] + Delete(ps[1..], id)
  }

  /** A key sequence with every occurrence of `id` dropped, the rest in order. */
  function IdsWithout(ids: seq<Id>, id: Id): seq<Id>
  {
    if ids == [] then []
    else if ids[0] == id then IdsWithout(ids[1..], id)
    else [ids[0]] + IdsWithout(ids[1..], id)
  }

  lemma {:induction false} IdsWithoutAbsent(ids: seq<Id>, id: Id)
    requires id !in ids
    ensures IdsWithout(ids, id) == ids
  {
    if ids != [] {
      IdsWithoutAbsent(ids[1..], id);
    }
  }

  /** Deleting a key keeps the remaining keys in their order. */
  lemma {:induction false} DeleteKeepsOrder(ps: seq<Entry>, id: Id)
    requires Distinct(ps)
    ensures Ids(Delete(ps, id)) == IdsWithout(Ids(ps), id)
  {
    if ps != [] {
      assert Ids(ps)[1..] == Ids(ps[1..]);
      if ps[0].0 == id {
        IdsWithoutAbsent(Ids(ps[1..]), id);
      } else {
        DeleteKeepsOrder(ps[1..], id);
        assert Ids(Delete(ps, id)) == [ps[0].0] + Ids(Delete(ps[1..], id));
      }
    }
  }

  // ---- The room invariant ----

  /**
   * What every handler keeps true of a stored room: at most two players with
   * distinct ids, a score entry for exactly the players, pending moves only
   * from players, and at most one pending move between events.
   */
  predicate WellFormed(r: Room)
  {
    && |r.players| <= 2
    && Distinct(r.players)
    && (forall k :: k in r.score ==> k in Ids(r.players))
    && (forall k :: k in Ids(r.players) ==> k in r.score)
    && (forall k :: k in r.moves ==> k in Ids(r.players))
    && |r.moves| <= 1
  }

  lemma EmptyRoomWellFormed()
    ensures WellFormed(EmptyRoom)
  {
  }

  /** A map whose keys are among `a` and `b` holds both of them when it has two entries. */
  lemma {:induction false} TwoKeys<V>(m: map<Id, V>, a: Id, b: Id)
    requires forall k :: k in m ==> k == a || k == b
    ensures |m| <= 2
    ensures |m| == 2 ==> a in m && b in m && a != b
  {
    assert m.Keys <= {a, b};
    if a in m && b in m {
      if a == b {
        assert m.Keys == {a};
      } else {
        assert m.Keys == {a, b};
      }
    } else if a in m {
      assert m.Keys == {a};
    } else if b in m {
      assert m.Keys == {b};
    } else {
      assert m.Keys == {};
    }
  }

  /** A map with at most one entry that holds `k` holds nothing else. */
  lemma SingleKey<V>(m: map<Id, V>, k: Id)
    requires k in m && |m| <= 1
    ensures m.Keys == {k}
  {
    var rest := m.Keys - {k};
    assert m.Keys == rest + {k};
    assert |m.Keys| == |rest| + 1;
    assert rest == {};
  }

  /** The pending moves of a room never outnumber its players. */
  lemma MovesAtMostPlayers(r: Room)
    requires WellFormed(r)
    ensures |r.moves| <= |r.players|
  {
    if |r.players| == 0 {
      assert r.moves.Keys == {};
    }
  }

  // ---- roomState ----

  datatype PlayerView = PlayerView(id: Id, name: string, ready: bool)

  datatype Snapshot = Snapshot(players: seq<PlayerView>, scores: map<Id, Score>)

  /** `roomState(room)`: the players in join order, then the whole score table. */
  function RoomSnapshot(r: Room): (s: Snapshot)
    ensures |s.players| == |r.players|
    ensures forall i :: 0 <= i < |r.players| ==>
      s.players[i] == PlayerView(r.players[i].0, r.players[i].1.name, r.players[i].1.ready)
    ensures s.scores == r.score
  {
    Snapshot(seq(|r.players|, i requires 0 <= i < |r.players| =>
               PlayerView(r.players[i].0, r.players[i].1.name, r.players[i].1.ready)),
             r.score)
  }

  /** In a room without duplicate ids, the i-th entry is what a lookup of its id finds. */
  lemma {:induction false} LookupAt(ps: seq<Entry>, i: int)
    requires Distinct(ps) && 0 <= i < |ps|
    ensures Lookup(ps, ps[i].0) == Some(ps[i].1)
  {
    if i > 0 {
      assert ps[i].0 == Ids(ps[1..])[i - 1];
      LookupAt(ps[1..], i - 1);
    }
  }

  /** Every view of the snapshot shows the name and readiness stored for that id. */
  lemma SnapshotAgreesWithLookup(r: Room)
    requires Distinct(r.players)
    ensures forall i :: 0 <= i < |r.players| ==>
      var v := RoomSnapshot(r).players[i];
      Lookup(r.players, v.id) == Some(Player(v.name, v.ready))
  {
    forall i | 0 <= i < |r.players|
      ensures Lookup(r.players, r.players[i].0) == Some(r.players[i].1)
    {
      LookupAt(r.players, i);
    }
  }

  /** Outbound messages; `error_msg` carries the text shown to the sender. */
  datatype Payload =
    | RoomState(snapshot: Snapshot)
    | MoveLocked(playerId: Id)
    | RoundResult(p1: Id, m1: Move, p2: Id, m2: Move, o1: Outcome, o2: Outcome, scores: map<Id, Score>)
    | ErrorMsg(text: string)

  // ---- join_room ----

  /** A successful `join_room`: the player is (re)set to not ready, the score entry is kept or created. */
  function Admit(r: Room, id: Id, name: string): (a: Room)
    ensures Lookup(a.players, id) == Some(Player(NameOrDefault(name), false))
    ensures id in a.score && a.moves == r.moves
  {
    Room(Put(r.players, id, Player(NameOrDefault(name), false)),
         r.moves,
         if id in r.score then r.score else r.score[id := Zero])
  }

  lemma AdmitSpec(r: Room, id: Id, name: string)
    requires WellFormed(r) && |r.players| < 2
    ensures var a := Admit(r, id, name);
      && WellFormed(a)
      && Lookup(a.players, id) == Some(Player(NameOrDefault(name), false))
      && Ids(a.players) == (if id in Ids(r.players) then Ids(r.players) else Ids(r.players) + [id])
      && a.score[id] == (if id in r.score then r.score[id] else Zero)
      && a.moves == r.moves
      && (forall q :: q != id ==> Lookup(a.players, q) == Lookup(r.players, q))
      && (forall q :: q != id && q in r.score ==> q in a.score && a.score[q] == r.score[q])
  {
  }

  // ---- rename and player_ready ----

  /** `rename`: the new name, or the default for an empty one, cut to 40 characters. */
  function RenamePlayer(r: Room, id: Id, newName: string): (a: Room)
    requires id in Ids(r.players)
    ensures Ids(a.players) == Ids(r.players)
    ensures Lookup(a.players, id) == Some(Player(Truncate(NameOrDefault(newName)), Lookup(r.players, id).value.ready))
  {
    var p := Lookup(r.players, id).value;
    r.(players := Put(r.players, id, p.(name := Truncate(NameOrDefault(newName)))))
  }

  lemma RenameSpec(r: Room, id: Id, newName: string)
    requires WellFormed(r) && id in Ids(r.players)
    ensures var a := RenamePlayer(r, id, newName);
      && WellFormed(a)
      && Ids(a.players) == Ids(r.players)
      && Lookup(a.players, id) == Some(Player(Truncate(NameOrDefault(newName)), Lookup(r.players, id).value.ready))
      && |Lookup(a.players, id).value.name| <= MaxNameLength
      && (forall q :: q != id ==> Lookup(a.players, q) == Lookup(r.players, q))
      && a.moves == r.moves && a.score == r.score
  {
  }

  /** `player_ready`: the player's ready flag is set. */
  function MarkReady(r: Room, id: Id): (a: Room)
    requires id in Ids(r.players)
    ensures Ids(a.players) == Ids(r.players)
    ensures Lookup(a.players, id) == Some(Player(Lookup(r.players, id).value.name, true))
  {
    var p := Lookup(r.players, id).value;
    r.(players := Put(r.players, id, p.(ready := true)))
  }

  lemma MarkReadySpec(r: Room, id: Id)
    requires WellFormed(r) && id in Ids(r.players)
    ensures var a := MarkReady(r, id);
      && WellFormed(a)
      && Ids(a.players) == Ids(r.players)
      && Lookup(a.players, id) == Some(Player(Lookup(r.players, id).value.name, true))
      && (forall q :: q != id ==> Lookup(a.players, q) == Lookup(r.players, q))
      && a.moves == r.moves && a.score == r.score
  {
  }

  /** Readying a player who is already ready changes nothing. */
  lemma MarkReadyIdempotent(r: Room, id: Id)
    requires id in Ids(r.players)
    ensures id in Ids(MarkReady(r, id).players)
    ensures MarkReady(MarkReady(r, id), id) == MarkReady(r, id)
  {
    var p := Lookup(r.players, id).value.(ready := true);
    PutTwice(r.players, id, p);
  }

  // ---- make_move and round resolution ----

  /** One score entry after a round with outcome `o` for its owner. */
  function Credit(s: Score, o: Outcome): (c: Score)
    ensures Total(c) == Total(s) + 1
  {
    match o
    case Win => s.(wins := s.wins + 1)
    case Lose => s.(losses := s.losses + 1)
    case Tie => s.(ties := s.ties + 1)
  }

  /** The three `if (o1 === ...)` score updates of a resolved round. */
  function Tally(score: map<Id, Score>, p1: Id, p2: Id, o1: Outcome): (r: map<Id, Score>)
    requires p1 != p2 && p1 in score && p2 in score
    ensures r.Keys == score.Keys
    ensures r[p1] == Credit(score[p1], o1)
    ensures r[p2] == Credit(score[p2], Opposite(o1))
    ensures forall k :: k in score && k != p1 && k != p2 ==> r[k] == score[k]
  {
    match o1
    case Win =>
      score[p1 := score[p1].(wins := score[p1].wins + 1)][p2 := score[p2].(losses := score[p2].losses + 1)]
    case Lose =>
      score[p1 := score[p1].(losses := score[p1].losses + 1)][p2 := score[p2].(wins := score[p2].wins + 1)]
    case Tie =>
      score[p1 := score[p1].(ties := score[p1].ties + 1)][p2 := score[p2].(ties := score[p2].ties + 1)]
  }

  /** Every player kept, in order, with its ready flag cleared. */
  function Unreadied(ps: seq<Entry>): (r: seq<Entry>)
    ensures |r| == |ps|
    ensures forall i :: 0 <= i < |ps| ==> r[i].0 == ps[i].0 && r[i].1 == ps[i].1.(ready := false)
  {
    seq(|ps|, i requires 0 <= i < |ps| => (ps[i].0, ps[i].1.(ready := false)))
  }

  lemma {:induction false} UnreadiedKeepsIds(ps: seq<Entry>)
    ensures Ids(Unreadied(ps)) == Ids(ps)
    ensures Distinct(ps) ==> Distinct(Unreadied(ps))
    ensures forall q :: Lookup(Unreadied(ps), q) == if q in Ids(ps) then Some(Lookup(ps, q).value.(ready := false)) else None
  {
    if ps != [] {
      UnreadiedKeepsIds(ps[1..]);
      assert Unreadied(ps) == [(ps[0].0, ps[0].1.(ready := false))] + Unreadied(ps[1..]);
    }
  }

  /** The outcome of both moves, p1 and p2 taken in join order. */
  function Resolve(r: Room): (s: Submission)
    requires |r.players| == 2 && r.players[0].0 != r.players[1].0
    requires r.players[0].0 in r.moves && r.players[1].0 in r.moves
    requires r.players[0].0 in r.score && r.players[1].0 in r.score
    ensures Ids(s.room.players) == Ids(r.players)
    ensures s.room.moves == map[] && s.room.score.Keys == r.score.Keys
    ensures s.payload.RoundResult? && s.payload.o2 == Opposite(s.payload.o1)
  {
    UnreadiedKeepsIds(r.players);
    OutcomesComplementary(r.moves[r.players[0].0], r.moves[r.players[1].0]);
    var p1, p2 := r.players[0].0, r.players[1].0;
    var m1, m2 := r.moves[p1], r.moves[p2];
    var o1, o2 := ComputeOutcome(m1, m2), ComputeOutcome(m2, m1);
    var score := Tally(r.score, p1, p2, o1);
    Submission(Room(Unreadied(r.players), map[], score), RoundResult(p1, m1, p2, m2, o1, o2, score))
  }

  datatype Submission = Submission(room: Room, payload: Payload)

  /**
   * `make_move` with a valid choice: the move overwrites the sender's pending
   * one; with two players and two moves the round resolves, otherwise the
   * room learns only that the sender has locked a move.
   */
  function Submit(r: Room, id: Id, m: Move): (s: Submission)
    requires WellFormed(r) && id in Ids(r.players)
    ensures WellFormed(s.room)
  {
    var recorded := r.(moves := r.moves[id := m]);
    TwoKeys(recorded.moves, if |r.players| == 2 then r.players[0].0 else id, if |r.players| == 2 then r.players[1].0 else id);
    if |recorded.players| == 2 && |recorded.moves| == 2 then
      UnreadiedKeepsIds(r.players);
      Resolve(recorded)
    else
      Submission(recorded, MoveLocked(id))
  }

  /** The other player of a full room. */
  function Opponent(ps: seq<Entry>, id: Id): Id
    requires |ps| == 2
  {
    if ps[0].0 == id then ps[1].0 else ps[0].0
  }

  /**
   * The round resolves exactly when the room is full and the opponent already
   * has a pending move; otherwise only the move is recorded and `move_locked`
   * names the sender.
   */
  lemma {:induction false} SubmitResolvesIff(r: Room, id: Id, m: Move)
    requires WellFormed(r) && id in Ids(r.players)
    ensures Submit(r, id, m).payload.RoundResult? <==> |r.players| == 2 && Opponent(r.players, id) in r.moves
    ensures !Submit(r, id, m).payload.RoundResult? ==>
      Submit(r, id, m) == Submission(r.(moves := r.moves[id := m]), MoveLocked(id))
  {
    var moves := r.moves[id := m];
    if |r.players| == 2 {
      var a, b := r.players[0].0, r.players[1].0;
      var o := Opponent(r.players, id);
      assert a != b;
      assert id == a || id == b;
      TwoKeys(moves, a, b);
      if o in r.moves {
        SingleKey(r.moves, o);
        assert moves.Keys == {o, id};
      } else {
        assert forall k :: k in moves ==> k == id;
        TwoKeys(moves, id, id);
      }
    }
  }

  /** A submission changes neither who is in the room nor in which order. */
  lemma SubmitKeepsPlayers(r: Room, id: Id, m: Move)
    requires WellFormed(r) && id in Ids(r.players)
    ensures Ids(Submit(r, id, m).room.players) == Ids(r.players)
  {
    SubmitResolvesIff(r, id, m);
    UnreadiedKeepsIds(r.players);
  }

  /** Re-submitting before the round resolves overwrites the pending move and never resolves it. */
  lemma ResubmitOverwrites(r: Room, id: Id, m: Move)
    requires WellFormed(r) && id in Ids(r.players) && id in r.moves
    ensures Submit(r, id, m).payload == MoveLocked(id)
    ensures Submit(r, id, m).room.moves == map[id := m]
  {
    SingleKey(r.moves, id);
    SubmitResolvesIff(r, id, m);
    assert r.moves[id := m] == map[id := m];
  }

  /** Wins summed over the players of the room (the score table holds exactly them). */
  function TotalWins(r: Room): nat
  {
    SumOver(Ids(r.players), r.score, (s: Score) => s.wins)
  }

  function TotalLosses(r: Room): nat
  {
    SumOver(Ids(r.players), r.score, (s: Score) => s.losses)
  }

  function SumOver(ids: seq<Id>, score: map<Id, Score>, f: Score -> nat): nat
  {
    if ids == [] then 0
    else (if ids[0] in score then f(score[ids[0]]) else 0) + SumOver(ids[1..], score, f)
  }

  lemma SumOverPair(a: Id, b: Id, score: map<Id, Score>, f: Score -> nat)
    requires a in score && b in score
    ensures SumOver([a, b], score, f) == f(score[a]) + f(score[b])
  {
    assert [a, b][1..] == [b];
    assert [b][1..] == [];
    assert SumOver([b], score, f) == f(score[b]) + SumOver([], score, f);
  }

  /** The `round_result` payload: both moves (the sender's new one included) and both outcomes, in join order. */
  lemma {:induction false} ResolutionPayload(r: Room, id: Id, m: Move)
    requires WellFormed(r) && id in Ids(r.players)
    requires Submit(r, id, m).payload.RoundResult?
    ensures var s := Submit(r, id, m);
      var moves := r.moves[id := m];
      && |r.players| == 2 && r.players[0].0 in moves && r.players[1].0 in moves
      && s.payload.p1 == r.players[0].0 && s.payload.p2 == r.players[1].0
      && s.payload.m1 == moves[r.players[0].0] && s.payload.m2 == moves[r.players[1].0]
      && s.payload.o1 == ComputeOutcome(s.payload.m1, s.payload.m2)
      && s.payload.o2 == Opposite(s.payload.o1)
      && s.payload.scores == s.room.score
  {
    var moves := r.moves[id := m];
    SubmitResolvesIff(r, id, m);
    var a, b := r.players[0].0, r.players[1].0;
    assert Ids(r.players) == [a, b];
    TwoKeys(moves, a, b);
    assert Submit(r, id, m) == Resolve(Room(r.players, moves, r.score));
    OutcomesComplementary(moves[r.players[0].0], moves[r.players[1].0]);
  }

  /**
   * The scores after a resolved round: each player gains exactly the counter
   * its outcome names, so one round more; the room's wins and losses grow by
   * the same amount.
   */
  lemma {:induction false} ResolutionScores(r: Room, id: Id, m: Move)
    requires WellFormed(r) && id in Ids(r.players)
    requires Submit(r, id, m).payload.RoundResult?
    ensures var s := Submit(r, id, m);
      var p1, p2 := s.payload.p1, s.payload.p2;
      && p1 in r.score && p2 in r.score && p1 in s.room.score && p2 in s.room.score
      && s.room.score.Keys == r.score.Keys
      && s.room.score[p1] == Credit(r.score[p1], s.payload.o1)
      && s.room.score[p2] == Credit(r.score[p2], s.payload.o2)
      && Total(s.room.score[p1]) == Total(r.score[p1]) + 1
      && Total(s.room.score[p2]) == Total(r.score[p2]) + 1
      && TotalWins(s.room) - TotalWins(r) == TotalLosses(s.room) - TotalLosses(r)
  {
    var s := Submit(r, id, m);
    ResolutionPayload(r, id, m);
    UnreadiedKeepsIds(r.players);
    var p1, p2 := r.players[0].0, r.players[1].0;
    assert Ids(r.players) == [p1, p2];
    assert Ids(s.room.players) == [p1, p2];
    SumOverPair(p1, p2, r.score, (x: Score) => x.wins);
    SumOverPair(p1, p2, r.score, (x: Score) => x.losses);
    SumOverPair(p1, p2, s.room.score, (x: Score) => x.wins);
    SumOverPair(p1, p2, s.room.score, (x: Score) => x.losses);
  }

  /** After a resolved round no move is pending and both players must ready up again. */
  lemma {:induction false} ResolutionClears(r: Room, id: Id, m: Move)
    requires WellFormed(r) && id in Ids(r.players)
    requires Submit(r, id, m).payload.RoundResult?
    ensures var s := Submit(r, id, m);
      && s.room.moves == map[]
      && Ids(s.room.players) == Ids(r.players)
      && |s.room.players| == |r.players|
      && (forall i :: 0 <= i < |r.players| ==> s.room.players[i].1 == r.players[i].1.(ready := false))
  {
    SubmitResolvesIff(r, id, m);
    UnreadiedKeepsIds(r.players);
  }

  // ---- reset_scores ----

  /** Every score entry set back to zero wins, losses and ties. */
  function Zeroed(score: map<Id, Score>): (r: map<Id, Score>)
    ensures r.Keys == score.Keys
    ensures forall k :: k in r ==> r[k] == Zero
  {
    map k | k in score :: Zero
  }

  /** `reset_scores`: scores zeroed, pending moves cleared, nobody ready. */
  function Reset(r: Room): (a: Room)
    ensures Ids(a.players) == Ids(r.players)
    ensures a.moves == map[] && a.score.Keys == r.score.Keys
  {
    UnreadiedKeepsIds(r.players);
    Room(Unreadied(r.players), map[], Zeroed(r.score))
  }

  /** A reset keeps the players, their names and their order, and the set of score entries. */
  lemma ResetSpec(r: Room)
    requires WellFormed(r)
    ensures var a := Reset(r);
      && WellFormed(a)
      && Ids(a.players) == Ids(r.players)
      && (forall i :: 0 <= i < |r.players| ==> a.players[i].1.name == r.players[i].1.name && !a.players[i].1.ready)
      && a.score.Keys == r.score.Keys
      && (forall k :: k in a.score ==> a.score[k] == Zero)
      && a.moves == map[]
  {
    UnreadiedKeepsIds(r.players);
  }

  /** Resetting twice is resetting once. */
  lemma ResetIdempotent(r: Room)
    ensures Reset(Reset(r)) == Reset(r)
  {
    assert Unreadied(Unreadied(r.players)) == Unreadied(r.players);
    assert Zeroed(Zeroed(r.score)) == Zeroed(r.score);
  }

  // ---- disconnect ----

  /** `disconnect`: the player, its score entry and its pending move are removed. */
  function Depart(r: Room, id: Id): (a: Room)
    ensures id !in a.moves && id !in a.score
    ensures forall q :: q != id ==> Lookup(a.players, q) == Lookup(r.players, q)
  {
    Room(Delete(r.players, id), r.moves - {id}, r.score - {id})
  }

  /** A departure removes exactly the departing player and leaves everyone else as they were. */
  lemma {:induction false} DepartLeavesOthers(r: Room, id: Id)
    requires WellFormed(r)
    ensures var a := Depart(r, id);
      && id !in Ids(a.players) && id !in a.score && id !in a.moves
      && |a.players| == (if id in Ids(r.players) then |r.players| - 1 else |r.players|)
      && (forall q :: q != id ==> Lookup(a.players, q) == Lookup(r.players, q))
      && (forall q :: q != id && q in r.score ==> q in a.score && a.score[q] == r.score[q])
      && (forall q :: q != id && q in r.moves ==> q in a.moves && a.moves[q] == r.moves[q])
  {
  }

  /** The room is left empty exactly when the departing player was its only one. */
  lemma {:induction false} DepartEmptyIff(r: Room, id: Id)
    requires WellFormed(r)
    ensures Depart(r, id).players == [] <==> Ids(r.players) == [] || Ids(r.players) == [id]
  {
    var ids := Ids(r.players);
    if |ids| == 1 && id in ids {
      assert ids == [id];
    }
  }

  lemma {:induction false} DepartWellFormed(r: Room, id: Id)
    requires WellFormed(r)
    ensures WellFormed(Depart(r, id))
  {
    var a := Depart(r, id);
    assert |a.moves| <= |r.moves| by {
      assert a.moves.Keys == r.moves.Keys - {id};
      assert |r.moves.Keys| == |a.moves.Keys| + |r.moves.Keys * {id}|;
    }
    forall q | q in Ids(a.players) ensures q in a.score {
      assert q != id;
      assert Lookup(a.players, q) == Lookup(r.players, q);
    }
    forall q | q in a.score ensures q in Ids(a.players) {
      assert Lookup(a.players, q) == Lookup(r.players, q);
    }
    forall q | q in a.moves ensures q in Ids(a.players) {
      assert Lookup(a.players, q) == Lookup(r.players, q);
    }
  }

  /** The body of `make_move` from `room.moves.set(...)` on, run step by step. */
  method RecordMove(r: Room, id: Id, m: Move) returns (s: Submission)
    requires WellFormed(r) && id in Ids(r.players)
    ensures s == Submit(r, id, m)
  {
    var moves := r.moves[id := m];
    if |r.players| == 2 && |moves| == 2 {
      var p1, p2 := r.players[0].0, r.players[1].0;
      TwoKeys(moves, p1, p2);
      var m1, m2 := moves[p1], moves[p2];
      var o1 := ComputeOutcome(m1, m2);
      var o2 := ComputeOutcome(m2, m1);
      var score := r.score;
      if o1 == Win {
        score := score[p1 := score[p1].(wins := score[p1].wins + 1)];
        score := score[p2 := score[p2].(losses := score[p2].losses + 1)];
      }
      if o1 == Lose {
        score := score[p1 := score[p1].(losses := score[p1].losses + 1)];
        score := score[p2 := score[p2].(wins := score[p2].wins + 1)];
      }
      if o1 == Tie {
        score := score[p1 := score[p1].(ties := score[p1].ties + 1)];
        score := score[p2 := score[p2].(ties := score[p2].ties + 1)];
      }
      assert score == Tally(r.score, p1, p2, o1);
      var players := ClearReady(r.players);
      s := Submission(Room(players, map[], score), RoundResult(p1, m1, p2, m2, o1, o2, score));
      assert s == Resolve(Room(r.players, moves, r.score));
    } else {
      s := Submission(Room(r.players, moves, r.score), MoveLocked(id));
    }
  }

  // ---- The two loops of the handlers ----

  /** The ready-flag loop of `make_move` and `reset_scores`, run entry by entry. */
  method ClearReady(ps: seq<Entry>) returns (r: seq<Entry>)
    ensures r == Unreadied(ps)
  {
    r := ps;
    for i := 0 to |r|
      invariant |r| == |ps|
      invariant forall k :: 0 <= k < i ==> r[k] == (ps[k].0, ps[k].1.(ready := false))
      invariant forall k :: i <= k < |r| ==> r[k] == ps[k]
    {
      r := r[i := (r[i].0, r[i].1.(ready := false))];
    }
  }

  /** The score-zeroing loop of `reset_scores`, one key of the table at a time. */
  method ZeroScores(score: map<Id, Score>) returns (r: map<Id, Score>)
    ensures r == Zeroed(score)
  {
    r := score;
    var pending := score.Keys;
    while pending != {}
      invariant pending <= score.Keys && r.Keys == score.Keys
      invariant forall k :: k in r && k !in pending ==> r[k] == Zero
      decreases pending
    {
      var k :| k in pending;
      r := r[k := Zero];
      pending := pending - {k};
    }
  }
}
