/** The session service of services/SessionsService.kt: sessions with their
    peers, drawn words and guess history, the three operations that change
    them (`create`, `createGuess`, `addPeer`), and `toDTO`, which renders a
    session for clients. The database tables become a map from session id
    to a session value; the tables the service only reads (accounts, the
    word catalog) are passed in. */
module Sessions {
  import opened Wrappers
  import opened Entities
  import opened Scoring

  /** A row of `Peers`: an account sitting at a slot of the session. */
  datatype Peer = Peer(account: Uuid, pos: int)

  /** A row of `SessionWords`: a drawn word and the position of the guess
      that solved it. */
  datatype SessionWord = SessionWord(word: string, solved: Option<int>)

  /** A row of `Guesses`. */
  datatype Guess = Guess(txt: string, account: Uuid, pos: int)

  /** A row of `Sessions` with the rows that refer to it. Peers are kept in
      slot order (the `orderBy Peers.pos` of the source), guesses in the
      order they were stored. */
  datatype Session = Session(
    turn: int,
    size: int,
    limit: Option<int>,
    peers: seq<Peer>,
    words: seq<SessionWord>,
    guesses: seq<Guess>)

  /** `create` draws at most this many words. */
  const MaxWords: nat := 4

  // ---------------------------------------------------------------------
  // Invariants of the stored data

  /** Slots strictly increase along the peer list and lie in `0 until
      size`; the creator's slot 0 is the one exception a session of size
      zero or less can hold. */
  ghost predicate SlotsOrdered(peers: seq<Peer>, size: int)
  {
    && (forall i, j :: 0 <= i < j < |peers| ==> peers[i].pos < peers[j].pos)
    && (forall i :: 0 <= i < |peers| ==> 0 <= peers[i].pos && (peers[i].pos < size || peers[i].pos == 0))
  }

  /** The primary key (session, account) of `Peers`. */
  ghost predicate DistinctAccounts(peers: seq<Peer>)
  {
    forall i, j :: 0 <= i < j < |peers| ==> peers[i].account != peers[j].account
  }

  /** The primary key (session, word) of `SessionWords`. */
  ghost predicate DistinctWords(words: seq<SessionWord>)
  {
    forall i, j :: 0 <= i < j < |words| ==> words[i].word != words[j].word
  }

  /** A word's `solved` is the position of the first guess that spelled it,
      and is null while no guess has. */
  ghost predicate Settled(w: SessionWord, guesses: seq<Guess>)
  {
    match w.solved
    case None => forall q :: 0 <= q < |guesses| ==> guesses[q].txt != w.word
    case Some(p) =>
      && 0 <= p < |guesses| && guesses[p].txt == w.word
      && forall q :: 0 <= q < p ==> guesses[q].txt != w.word
  }

  ghost predicate WellFormed(s: Session)
  {
    && 0 <= s.turn < |s.peers|
    && SlotsOrdered(s.peers, s.size)
    && DistinctAccounts(s.peers)
    && |s.words| <= MaxWords
    && DistinctWords(s.words)
    && (forall j :: 0 <= j < |s.guesses| ==> s.guesses[j].pos == j)
    && (forall k :: 0 <= k < |s.words| ==> Settled(s.words[k], s.guesses))
  }

  /** What `toDTO` needs not to fail: every peer's account exists, and every
      guess is as long as every word (`cloudsToRatings` reads one guess
      letter per word letter). Stored guesses also hold no consumed marker,
      so the declarative `Cloud` is what `buildCloud` computes for them;
      every stored guess is a catalog word, and the loader stores letters
      only. */
  ghost predicate Renderable(s: Session, accounts: map<Uuid, string>)
  {
    && (forall i :: 0 <= i < |s.peers| ==> s.peers[i].account in accounts)
    && (forall k, q :: 0 <= k < |s.words| && 0 <= q < |s.guesses| ==> |s.guesses[q].txt| == |s.words[k].word|)
    && (forall q :: 0 <= q < |s.guesses| ==> Consumed !in s.guesses[q].txt)
  }

  // ---------------------------------------------------------------------
  // createGuess

  /** `indexOfFirst { it.accountId == account }`: -1 when absent. */
  function IndexOfFirst(peers: seq<Peer>, account: Uuid): (r: int)
    ensures -1 <= r < |peers|
    ensures r == -1 <==> forall j :: 0 <= j < |peers| ==> peers[j].account != account
    ensures 0 <= r ==> peers[r].account == account && forall j :: 0 <= j < r ==> peers[j].account != account
  {
    if peers == [] then -1
    else if peers[0].account == account then 0
    else
      var k := IndexOfFirst(peers[1..], account);
      if k == -1 then -1 else k + 1
  }

  /** `orderBy(pos DESC).limit(1)`: the highest stored position. */
  function LatestPos(guesses: seq<Guess>): (r: Option<int>)
    ensures r.None? <==> guesses == []
    ensures r.Some? ==> exists j :: 0 <= j < |guesses| && guesses[j].pos == r.value
    ensures r.Some? ==> forall j :: 0 <= j < |guesses| ==> guesses[j].pos <= r.value
  {
    if guesses == [] then None
    else
      var before := LatestPos(guesses[..|guesses| - 1]);
      var last := guesses[|guesses| - 1].pos;
      if before.Some? && before.value >= last then before else Some(last)
  }

  /** `(latest?.pos ?: -1) + 1`. */
  function NextGuessPos(guesses: seq<Guess>): (r: int)
    ensures guesses == [] ==> r == 0
    ensures forall j :: 0 <= j < |guesses| ==> guesses[j].pos < r
  {
    match LatestPos(guesses)
    case None => 0
    case Some(p) => p + 1
  }

  /** With positions numbered from zero, the next position is the number
      of guesses so far. */
  lemma NextGuessPosCountsGuesses(guesses: seq<Guess>)
    requires forall j :: 0 <= j < |guesses| ==> guesses[j].pos == j
    ensures NextGuessPos(guesses) == |guesses|
  {
    if guesses != [] {
      var last := |guesses| - 1;
      assert guesses[last].pos == last;
    }
  }

  /** `if (turn + 1 == count) 0 else turn + 1`. */
  function NextTurn(turn: int, count: int): (r: int)
    ensures 0 <= turn < count ==> 0 <= r < count
  {
    if turn + 1 == count then 0 else turn + 1
  }

  /** Turns go round the peers in slot order. */
  lemma NextTurnCycles(turn: int, count: int)
    requires 0 <= turn < count
    ensures 0 <= NextTurn(turn, count) < count
    ensures NextTurn(turn, count) == (turn + 1) % count
  {
  }

  /** The `findSingleByAndUpdate` of `createGuess`: the unsolved word equal
      to the guess (there is at most one) records the guess position. */
  function SolveMatching(words: seq<SessionWord>, txt: string, pos: int): (r: seq<SessionWord>)
    ensures |r| == |words|
    ensures forall k :: 0 <= k < |words| ==> r[k].word == words[k].word
    ensures forall k :: 0 <= k < |words| && words[k].solved.Some? ==> r[k] == words[k]
    ensures forall k :: 0 <= k < |words| && words[k].word != txt ==> r[k] == words[k]
    ensures forall k :: 0 <= k < |words| ==> (r[k].solved.Some? <==> words[k].solved.Some? || words[k].word == txt)
  {
    seq(|words|, k requires 0 <= k < |words| =>
      if words[k].word == txt && words[k].solved.None? then words[k].(solved := Some(pos)) else words[k])
  }

  /** The session after an accepted guess. */
  function AfterGuess(s: Session, account: Uuid, txt: string): (r: Session)
    ensures r.peers == s.peers && r.size == s.size && r.limit == s.limit
    ensures |r.words| == |s.words| && |r.guesses| == |s.guesses| + 1
    ensures r.guesses[..|s.guesses|] == s.guesses
    ensures r.guesses[|s.guesses|].txt == txt && r.guesses[|s.guesses|].account == account
  {
    var pos := NextGuessPos(s.guesses);
    s.(turn := NextTurn(s.turn, |s.peers|),
       words := SolveMatching(s.words, txt, pos),
       guesses := s.guesses + [Guess(txt, account, pos)])
  }

  /** An accepted guess keeps a session well formed: it is stored at the
      next position, the turn passes on, and `solved` still points at the
      first guess that spelled each word. */
  lemma GuessKeepsWellFormed(s: Session, account: Uuid, txt: string)
    requires WellFormed(s)
    ensures WellFormed(AfterGuess(s, account, txt))
    ensures AfterGuess(s, account, txt).guesses == s.guesses + [Guess(txt, account, |s.guesses|)]
  {
    NextGuessPosCountsGuesses(s.guesses);
    NextTurnCycles(s.turn, |s.peers|);
    var t := AfterGuess(s, account, txt);
    var n := |s.guesses|;
    forall k | 0 <= k < |t.words|
      ensures Settled(t.words[k], t.guesses)
    {
      assert Settled(s.words[k], s.guesses);
      assert forall q :: 0 <= q < n ==> t.guesses[q] == s.guesses[q];
      if s.words[k].solved.None? && s.words[k].word == txt {
        assert t.words[k].solved == Some(n);
      }
    }
  }

  /** A guess solves exactly the unsolved words it spells, at its own
      position; words already solved keep their position. */
  lemma GuessSolves(s: Session, account: Uuid, txt: string, k: nat)
    requires WellFormed(s) && k < |s.words|
    ensures var t := AfterGuess(s, account, txt);
      && (t.words[k].solved.Some? <==> s.words[k].solved.Some? || s.words[k].word == txt)
      && (s.words[k].solved.Some? ==> t.words[k].solved == s.words[k].solved)
      && (s.words[k].solved.None? && s.words[k].word == txt ==> t.words[k].solved == Some(|s.guesses|))
  {
    NextGuessPosCountsGuesses(s.guesses);
  }

  // ---------------------------------------------------------------------
  // addPeer: the slot a joining account takes

  /** The account holds a slot of the session. */
  predicate Occupied(peers: seq<Peer>, x: int)
  {
    exists j :: 0 <= j < |peers| && peers[j].pos == x
  }

  /** `(lo until hi).filter { existingPos.contains(it) == taken }`. */
  function SlotsWhere(peers: seq<Peer>, lo: int, hi: int, taken: bool): (r: seq<int>)
    ensures forall x :: x in r <==> lo <= x < hi && Occupied(peers, x) == taken
    decreases hi - lo
  {
    if lo >= hi then []
    else (if Occupied(peers, lo) == taken then [lo] else []) + SlotsWhere(peers, lo + 1, hi, taken)
  }

  /** The slot list `addPeer` draws from, as written: the slots some peer
      already holds. */
  function OccupiedSlots(peers: seq<Peer>, size: int): seq<int>
  {
    SlotsWhere(peers, 0, size, true)
  }

  /** The slot list `addPeer` is meant to draw from: the slots nobody holds. */
  function FreeSlots(peers: seq<Peer>, size: int): seq<int>
  {
    SlotsWhere(peers, 0, size, false)
  }

  /** As written, the joining account is always given a slot somebody
      already holds: with the creator alone in slot 0 of a session for two,
      the only slot offered is 0, while slot 1 is the free one. */
  lemma OccupiedSlotsCollide()
    ensures forall x :: x in OccupiedSlots([Peer(1, 0)], 2) ==> Occupied([Peer(1, 0)], x)
    ensures OccupiedSlots([Peer(1, 0)], 2) == [0]
    ensures FreeSlots([Peer(1, 0)], 2) == [1]
  {
    var peers := [Peer(1, 0)];
    assert peers[0].pos == 0;
    assert Occupied(peers, 0);
    assert !Occupied(peers, 1);
  }

  /** Seating a newcomer in a slot the source offers always puts two
      peers in one slot, so the slot order of the peer list is lost. */
  lemma OccupiedSlotBreaksOrder(peers: seq<Peer>, size: int, newcomer: Uuid, x: int)
    requires x in OccupiedSlots(peers, size)
    requires forall j :: 0 <= j < |peers| ==> peers[j].account != newcomer
    ensures !SlotsOrdered(InsertBySlot(peers, Peer(newcomer, x)), size)
  {
    var p := Peer(newcomer, x);
    var r := InsertBySlot(peers, p);
    var j :| 0 <= j < |peers| && peers[j].pos == x;
    var q := peers[j];
    assert q in peers;
    assert p in r && q in r;
    var a :| 0 <= a < |r| && r[a] == p;
    var b :| 0 <= b < |r| && r[b] == q;
    assert q.account != p.account;
    if a < b {
      assert !(r[a].pos < r[b].pos);
    } else {
      assert !(r[b].pos < r[a].pos);
    }
  }

  /** Every free slot lies in range and is held by nobody. */
  lemma FreeSlotsAreFree(peers: seq<Peer>, size: int, x: int)
    requires x in FreeSlots(peers, size)
    ensures 0 <= x < size
    ensures forall j :: 0 <= j < |peers| ==> peers[j].pos != x
  {
  }

  lemma {:induction false} SlotAtLeastIndex(peers: seq<Peer>, size: int, i: nat)
    requires SlotsOrdered(peers, size) && i < |peers|
    ensures peers[i].pos >= i
  {
    if i > 0 {
      SlotAtLeastIndex(peers, size, i - 1);
    }
  }

  /** A session with room left always has a free slot, so the random draw
      of the corrected `addPeer` never meets an empty list. */
  lemma FreeSlotExists(peers: seq<Peer>, size: int)
    requires SlotsOrdered(peers, size) && size >= 1
    ensures |peers| <= size
    ensures |peers| < size ==> FreeSlots(peers, size) != []
  {
    if |peers| > 0 {
      SlotAtLeastIndex(peers, size, |peers| - 1);
      assert peers[|peers| - 1].pos < size;
    }
    if |peers| < size {
      if i :| 0 <= i < |peers| && peers[i].pos > i {
        var first := FirstGap(peers, size, i);
        assert first in FreeSlots(peers, size);
      } else {
        forall j | 0 <= j < |peers|
          ensures peers[j].pos != |peers|
        {
          SlotAtLeastIndex(peers, size, j);
        }
        assert |peers| in FreeSlots(peers, size);
      }
    }
  }

  /** Below the first index whose slot runs ahead of it, slots equal their
      indices, so that index is a free slot. */
  lemma {:induction false} FirstGap(peers: seq<Peer>, size: int, i: nat) returns (g: nat)
    requires SlotsOrdered(peers, size) && i < |peers| && peers[i].pos > i
    ensures g <= i && !Occupied(peers, g) && g < size
    decreases i
  {
    if k :| 0 <= k < i && peers[k].pos > k {
      g := FirstGap(peers, size, k);
    } else {
      forall j | 0 <= j < |peers|
        ensures peers[j].pos != i
      {
        if j < i {
          assert peers[j].pos <= j;
        } else {
          assert peers[j].pos >= peers[i].pos;
        }
      }
      g := i;
    }
  }

  /** Insert a peer at its place in slot order. */
  function InsertBySlot(peers: seq<Peer>, p: Peer): (r: seq<Peer>)
    ensures |r| == |peers| + 1
    ensures multiset(r) == multiset(peers) + multiset{p}
    ensures forall q :: q in r <==> q in peers || q == p
  {
    if peers == [] || p.pos < peers[0].pos then [p] + peers
    else
      assert peers == [peers[0]] + peers[1..];
      [peers[0]] + InsertBySlot(peers[1..], p)
  }

  lemma {:induction false} InsertBySlotOrdered(peers: seq<Peer>, p: Peer, size: int)
    requires SlotsOrdered(peers, size)
    requires 0 <= p.pos < size && !Occupied(peers, p.pos)
    ensures SlotsOrdered(InsertBySlot(peers, p), size)
  {
    var r := InsertBySlot(peers, p);
    if peers == [] || p.pos < peers[0].pos {
      assert r == [p] + peers;
    } else {
      assert p.pos != peers[0].pos;
      assert SlotsOrdered(peers[1..], size);
      assert !Occupied(peers[1..], p.pos) by {
        forall j | 0 <= j < |peers[1..]| ensures peers[1..][j].pos != p.pos {
          assert peers[1..][j] == peers[j + 1];
        }
      }
      InsertBySlotOrdered(peers[1..], p, size);
      var tail := InsertBySlot(peers[1..], p);
      assert r == [peers[0]] + tail;
      forall j | 0 <= j < |tail|
        ensures peers[0].pos < tail[j].pos
      {
        assert tail[j] in tail;
        if tail[j] != p {
          var k :| 0 <= k < |peers[1..]| && peers[1..][k] == tail[j];
          assert peers[k + 1] == tail[j];
        }
      }
    }
  }

  /** A newcomer whose account differs from every peer's keeps the
      accounts distinct. */
  lemma {:induction false} InsertKeepsAccounts(peers: seq<Peer>, p: Peer)
    requires DistinctAccounts(peers)
    requires forall j :: 0 <= j < |peers| ==> peers[j].account != p.account
    ensures DistinctAccounts(InsertBySlot(peers, p))
  {
    var r := InsertBySlot(peers, p);
    if peers == [] || p.pos < peers[0].pos {
      assert r == [p] + peers;
      forall i, j | 0 <= i < j < |r|
        ensures r[i].account != r[j].account
      {
        assert r[j] == peers[j - 1];
        if i > 0 {
          assert r[i] == peers[i - 1];
        }
      }
    } else {
      var tail := InsertBySlot(peers[1..], p);
      assert r == [peers[0]] + tail;
      assert DistinctAccounts(peers[1..]);
      InsertKeepsAccounts(peers[1..], p);
      forall i, j | 0 <= i < j < |r|
        ensures r[i].account != r[j].account
      {
        if i == 0 {
          assert r[j] == tail[j - 1] && tail[j - 1] in tail;
          if r[j] != p {
            var k :| 0 <= k < |peers[1..]| && peers[1..][k] == r[j];
            assert peers[k + 1] == r[j];
          }
        } else {
          assert r[i] == tail[i - 1] && r[j] == tail[j - 1];
        }
      }
    }
  }

  // ---------------------------------------------------------------------
  // toDTO

  /** `simpleGuesses.map { it.first }`. */
  function Texts(guesses: seq<Guess>): seq<string>
  {
    seq(|guesses|, q requires 0 <= q < |guesses| => guesses[q].txt)
  }

  /** `simpleGuesses.map { it.second }`. */
  function Authors(guesses: seq<Guess>): seq<Uuid>
  {
    seq(|guesses|, q requires 0 <= q < |guesses| => guesses[q].account)
  }

  /** Kotlin's `zip`: pairs up to the shorter length. */
  function Zip<A, B>(xs: seq<A>, ys: seq<B>): (r: seq<(A, B)>)
    ensures |r| == Min(|xs|, |ys|)
  {
    seq(Min(|xs|, |ys|), i requires 0 <= i < Min(|xs|, |ys|) => (xs[i], ys[i]))
  }

  /** `SessionWord.toDTO` followed by the projection in `Session.toDTO`:
      the word is shown only once solved, the rated history stops after the
      first guess that spells the word, and the keyboard sums up every
      guess. */
  function WordView(w: SessionWord, guesses: seq<Guess>): (r: ApiSessionWord)
    requires forall q :: 0 <= q < |guesses| ==> |guesses[q].txt| == |w.word|
    requires forall q :: 0 <= q < |guesses| ==> Consumed !in guesses[q].txt
    ensures r.word.Some? <==> w.solved.Some?
    ensures r.word.Some? ==> r.word.value == w.word
    ensures r.solved == w.solved
    ensures |r.guesses| <= |guesses|
  {
    var texts := Texts(guesses);
    var ratings := Ratings(Clouds(w.word, texts), texts);
    ApiSessionWord(
      if w.solved.Some? then Some(w.word) else None,
      w.solved,
      Zip(TakeThrough(ratings, (row: seq<ApiChar>) => Spell(row) != w.word), Authors(guesses)),
      KeyboardOf(ratings))
  }

  /** What a client sees of one quadrant: the word is revealed exactly when
      it is solved; the history holds the guesses up to and including the
      solving one (all of them while unsolved), each rated against the word
      and paired with its author; the keyboard keeps the best verdict of
      every guessed letter, guesses after the solving one included. */
  lemma WordViewFacts(w: SessionWord, guesses: seq<Guess>)
    requires forall q :: 0 <= q < |guesses| ==> |guesses[q].txt| == |w.word|
    requires forall q :: 0 <= q < |guesses| ==> Consumed !in guesses[q].txt
    requires Settled(w, guesses)
    ensures var v := WordView(w, guesses);
      && (v.word.Some? <==> w.solved.Some?)
      && (v.word.Some? ==> v.word.value == w.word)
      && v.solved == w.solved
      && |v.guesses| == (if w.solved.Some? then w.solved.value + 1 else |guesses|)
      && (forall i :: 0 <= i < |v.guesses| ==>
            && Spell(v.guesses[i].0) == guesses[i].txt
            && Verdicts(v.guesses[i].0) == Cloud(w.word, guesses[i].txt)
            && v.guesses[i].1 == guesses[i].account)
      && IsBestBoard(Flatten(Ratings(Clouds(w.word, Texts(guesses)), Texts(guesses))), v.keyboard)
  {
    var texts := Texts(guesses);
    var ratings := Ratings(Clouds(w.word, texts), texts);
    var keep := (row: seq<ApiChar>) => Spell(row) != w.word;
    forall q | 0 <= q < |ratings|
      ensures Spell(ratings[q]) == guesses[q].txt
    {
      assert texts[q][..|w.word|] == texts[q];
    }
    match w.solved {
      case None =>
        TakeThroughKeepsAll(ratings, keep);
      case Some(p) =>
        TakeThroughStopsAfterFailure(ratings, keep, p);
    }
    FoldIsBest(Flatten(ratings));
  }

  /** `Session.toDTO`. */
  function View(id: Uuid, s: Session, accounts: map<Uuid, string>): (r: ApiSession)
    requires Renderable(s, accounts)
    ensures r.id == id && r.turn == s.turn && r.size == s.size && r.limit == s.limit
    ensures |r.peers| == |s.peers| && |r.words| == |s.words|
    ensures forall i :: 0 <= i < |s.peers| ==>
              r.peers[i].id == s.peers[i].account && r.peers[i].name == accounts[s.peers[i].account]
    ensures forall k :: 0 <= k < |s.words| ==> (r.words[k].word.Some? <==> s.words[k].solved.Some?)
  {
    ApiSession(
      id, s.turn, s.size, s.limit,
      seq(|s.peers|, i requires 0 <= i < |s.peers| => ApiAccount(s.peers[i].account, accounts[s.peers[i].account])),
      seq(|s.words|, k requires 0 <= k < |s.words| => WordView(s.words[k], s.guesses)))
  }

  /** Number of guesses a client sees in quadrant `k`. */
  function SeenGuesses(s: Session, k: nat): int
    requires k < |s.words|
  {
    match s.words[k].solved
    case Some(p) => p + 1
    case None => |s.guesses|
  }

  /** The derived values a client computes from the snapshot agree with the
      stored session: the turn holder is the peer in the turn's slot order,
      the game is solved when every word is, and it is over when solved or
      when some quadrant shows exactly `limit` guesses. */
  lemma ViewFacts(id: Uuid, s: Session, accounts: map<Uuid, string>)
    requires WellFormed(s) && Renderable(s, accounts)
    ensures var a := View(id, s, accounts);
      && |a.peers| == |s.peers| && |a.words| == |s.words|
      && a.HasTurnHolder() && a.TurnId() == s.peers[s.turn].account
      && (a.IsSolved() <==> forall k :: 0 <= k < |s.words| ==> s.words[k].solved.Some?)
      && (a.IsOver() <==>
            (a.IsSolved() || (s.limit.Some? && exists k :: 0 <= k < |s.words| && SeenGuesses(s, k) == s.limit.value)))
  {
    var a := View(id, s, accounts);
    forall k | 0 <= k < |s.words|
      ensures |a.words[k].guesses| == SeenGuesses(s, k)
      ensures a.words[k].solved == s.words[k].solved
    {
      WordViewFacts(s.words[k], s.guesses);
    }
  }

  /** How `addPeer` ended. `Joined` and `AlreadyPeer` are both a null
      result in the source; `SlotDrawFailed` is `random()` on an empty
      list, which throws. */
  datatype JoinOutcome =
    | Joined(pos: int)
    | AlreadyPeer
    | Rejected(error: FieldError)
    | SlotDrawFailed

  class SessionsService {
    var sessions: map<Uuid, Session>

    ghost predicate Valid()
      reads this
    {
      forall id :: id in sessions ==> WellFormed(sessions[id])
    }

    constructor()
      ensures Valid() && sessions == map[]
    {
      sessions := map[];
    }

    /** `get`: the rendered session, or null when there is none. */
    method Get(id: Uuid, accounts: map<Uuid, string>) returns (r: Option<ApiSession>)
      requires Valid()
      requires id in sessions ==> Renderable(sessions[id], accounts)
      ensures r.None? <==> id !in sessions
      ensures r.Some? ==> r.value.id == id && r.value.HasTurnHolder()
      ensures r.Some? ==> r.value.TurnId() == sessions[id].peers[sessions[id].turn].account
      ensures r.Some? ==> r.value == View(id, sessions[id], accounts)
    {
      if id in sessions {
        var s := sessions[id];
        ViewFacts(id, s, accounts);
        r := Some(View(id, s, accounts));
      } else {
        r := None;
      }
    }

    /** `create`: a new session with the creator in slot 0 and the drawn
        words unsolved. The random draw (`orderBy(Random()).limit(4)` over
        the whole catalog) and the new session id are parameters. */
    method Create(accountId: Uuid, size: int, limit: Option<int>, draw: seq<string>, freshId: Uuid,
                  catalog: map<string, bool>, accounts: map<Uuid, string>)
        returns (a: ApiSession)
      requires Valid()
      requires accountId in accounts
      requires freshId !in sessions
      requires forall i :: 0 <= i < |draw| ==> draw[i] in catalog
      requires forall i, j :: 0 <= i < j < |draw| ==> draw[i] != draw[j]
      requires |draw| == Min(MaxWords, |catalog|)
      modifies this
      ensures Valid()
      ensures sessions == old(sessions)[freshId := Session(0, size, limit, [Peer(accountId, 0)],
                                          seq(|draw|, i requires 0 <= i < |draw| => SessionWord(draw[i], None)), [])]
      ensures a == View(freshId, sessions[freshId], accounts)
      ensures a.id == freshId && a.turn == 0 && a.peers == [ApiAccount(accountId, accounts[accountId])]
      ensures a.Status() == (if size != 1 then Loading(1)
                             else if draw == [] then Done(true)
                             else if limit == Some(0) then Done(false)
                             else Game)
    {
      var words := seq(|draw|, i requires 0 <= i < |draw| => SessionWord(draw[i], None));
      var s := Session(0, size, limit, [Peer(accountId, 0)], words, []);
      assert WellFormed(s);
      sessions := sessions[freshId := s];
      ViewFacts(freshId, s, accounts);
      a := View(freshId, s, accounts);
      if size == 1 && draw != [] {
        assert !a.IsSolved() by {
          assert s.words[0].solved.None?;
        }
        assert SeenGuesses(s, 0) == 0;
      }
    }

    /** `createGuess`. The session and the account must exist (the source
        asserts both with `!!`); the word catalog is passed in. */
    method CreateGuess(sessionId: Uuid, accountId: Uuid, txt: string,
                       catalog: map<string, bool>, accounts: map<Uuid, string>)
        returns (r: Result<ApiGuess, FieldError>)
      requires Valid()
      requires sessionId in sessions && accountId in accounts
      modifies this
      ensures Valid()
      ensures var s := old(sessions)[sessionId];
        if s.turn != IndexOfFirst(s.peers, accountId) then
          r == Failure(FieldError("accountId", Constraint(None, Some("turn")))) && sessions == old(sessions)
        else if txt !in catalog then
          r == Failure(FieldError("txt", Reference)) && sessions == old(sessions)
        else
          && r == Success(ApiGuess(txt, accountId, sessionId, |s.guesses|, Some(NextTurn(s.turn, |s.peers|))))
          && sessions == old(sessions)[sessionId := AfterGuess(s, accountId, txt)]
    {
      var s := sessions[sessionId];
      if s.turn != IndexOfFirst(s.peers, accountId) {
        return Failure(FieldError("accountId", Constraint(None, Some("turn"))));
      }
      if txt !in catalog {
        return Failure(FieldError("txt", Reference));
      }
      var guessPos := NextGuessPos(s.guesses);
      NextGuessPosCountsGuesses(s.guesses);
      var nextTurn := NextTurn(s.turn, |s.peers|);
      GuessKeepsWellFormed(s, accountId, txt);
      sessions := sessions[sessionId := AfterGuess(s, accountId, txt)];
      r := Success(ApiGuess(txt, accountId, sessionId, guessPos, Some(nextTurn)));
    }

    /** `addPeer`, with the slot drawn from the free slots. The random draw
        is the parameter `pick`: any natural number selects one slot. */
    method AddPeer(sessionId: Uuid, accountId: Uuid, accounts: map<Uuid, string>, pick: nat)
        returns (outcome: JoinOutcome)
      requires Valid()
      modifies this
      ensures Valid()
      ensures outcome.Joined? <==>
                && sessionId in old(sessions) && accountId in accounts
                && IndexOfFirst(old(sessions)[sessionId].peers, accountId) == -1
                && |old(sessions)[sessionId].peers| != old(sessions)[sessionId].size
                && FreeSlots(old(sessions)[sessionId].peers, old(sessions)[sessionId].size) != []
      ensures outcome.Joined? ==>
                var s := old(sessions)[sessionId];
                && outcome.pos in FreeSlots(s.peers, s.size)
                && sessions == old(sessions)[sessionId := s.(peers := InsertBySlot(s.peers, Peer(accountId, outcome.pos)))]
      ensures !outcome.Joined? ==> sessions == old(sessions)
      ensures sessionId !in old(sessions) ==> outcome == Rejected(FieldError("sessionId", Reference))
      ensures sessionId in old(sessions) && accountId !in accounts ==>
                outcome == Rejected(FieldError("accountId", Reference))
      ensures sessionId in old(sessions) && accountId in accounts ==>
                var s := old(sessions)[sessionId];
                && (IndexOfFirst(s.peers, accountId) != -1 ==> outcome == AlreadyPeer)
                && (IndexOfFirst(s.peers, accountId) == -1 && |s.peers| == s.size ==>
                      outcome == Rejected(FieldError("size", Constraint(Some(s.size), None))))
                && (IndexOfFirst(s.peers, accountId) == -1 && |s.peers| != s.size && s.size >= 1 ==>
                      outcome.Joined?)
                && (IndexOfFirst(s.peers, accountId) == -1 && |s.peers| != s.size && s.size < 1 ==>
                      outcome == SlotDrawFailed)
    {
      if sessionId !in sessions {
        return Rejected(FieldError("sessionId", Reference));
      }
      if accountId !in accounts {
        return Rejected(FieldError("accountId", Reference));
      }
      var s := sessions[sessionId];
      if IndexOfFirst(s.peers, accountId) != -1 {
        return AlreadyPeer;
      }
      if |s.peers| == s.size {
        return Rejected(FieldError("size", Constraint(Some(s.size), None)));
      }
      var possible := FreeSlots(s.peers, s.size);
      if s.size >= 1 {
        FreeSlotExists(s.peers, s.size);
      }
      if possible == [] {
        return SlotDrawFailed;
      }
      var pos := possible[pick % |possible|];
      FreeSlotsAreFree(s.peers, s.size, pos);
      var p := Peer(accountId, pos);
      InsertBySlotOrdered(s.peers, p, s.size);
      InsertKeepsAccounts(s.peers, p);
      var t := s.(peers := InsertBySlot(s.peers, p));
      assert 0 <= t.turn < |t.peers|;
      assert WellFormed(t);
      sessions := sessions[sessionId := t];
      outcome := Joined(pos);
    }
  }
}
