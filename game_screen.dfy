/** The client's game screen (GameScreen.kt) reduced to its logic: which
    state the screen shows, the rows of the four boards, and the guess
    buffer that key presses edit. Rendering, sockets, notifications and the
    account dialogs are not modelled. */
module GameScreen {
  import opened Wrappers
  import opened Text
  import opened Entities

  /** A character `KeyPress.Letter` accepts: its `init` requires a letter
      that is lower-case. */
  type LowerLetter = c: char | IsLowerLetter(c) witness 'a'

  datatype KeyPress = Enter | Backspace | Letter(ch: LowerLetter)

  /** Building a `KeyPress.Letter`: `None` is the `require` failure. */
  function MakeLetter(c: char): (r: Option<KeyPress>)
    ensures r.Some? <==> IsLetter(c) && !('A' <= c <= 'Z')
    ensures r.Some? ==> r.value == Letter(c)
  {
    if IsLowerLetter(c) then Some(Letter(c)) else None
  }

  /** `GuessRow`. */
  datatype GuessRow = Attempt(chars: seq<ApiChar>, account: Uuid) | Current(typed: string) | Empty

  /** The screen's two states, with what they carry of interest here. */
  datatype ScreenState =
    | Loading(selfId: Option<Uuid>, sessionId: Option<Uuid>, peers: Option<int>, size: Option<int>)
    | Game(self: Uuid, session: ApiSession)

  /** The `when` of `present()`: the game is shown once the account is
      known and every seat of the session is taken. */
  function Present(selfId: Option<Uuid>, session: Option<ApiSession>): (r: ScreenState)
    ensures r.Game? <==> selfId.Some? && session.Some? && |session.value.peers| == session.value.size
    ensures r.Game? ==> r.self == selfId.value && r.session == session.value
    ensures r.Loading? ==> r.selfId == selfId
    ensures r.Loading? ==> (r.sessionId.Some? <==> session.Some?) && (r.size.Some? <==> session.Some?)
    ensures r.Loading? && session.Some? ==>
              r.sessionId == Some(session.value.id) && r.peers == Some(|session.value.peers|)
              && r.size == Some(session.value.size)
  {
    if selfId.Some? && session.Some? && |session.value.peers| == session.value.size then
      ScreenState.Game(selfId.value, session.value)
    else
      ScreenState.Loading(selfId,
              if session.Some? then Some(session.value.id) else None,
              if session.Some? then Some(|session.value.peers|) else None,
              if session.Some? then Some(session.value.size) else None)
  }

  /** The game screen shows the same thing the server calls `Game` or
      `Done`: whenever it is shown the session is out of `Loading`. */
  lemma GameMeansSeated(selfId: Option<Uuid>, session: Option<ApiSession>)
    requires Present(selfId, session).Game?
    ensures !session.value.Status().Loading?
  {
  }

  /** Rows of a quadrant: its rated attempts, then, while unsolved, the row
      being typed and empty rows up to five in all. */
  function RowCount(w: ApiSessionWord): (n: nat)
    ensures n >= |w.guesses| && (w.solved.None? ==> n >= 5 && n > |w.guesses|)
  {
    if w.solved.Some? then |w.guesses|
    else if |w.guesses| + 1 < 5 then 5 else |w.guesses| + 1
  }

  /** The `rows` builder: four lists, one per quadrant (the source indexes
      quadrants 0 to 3, so a session needs four words). */
  method BuildRows(words: seq<ApiSessionWord>, guess: string) returns (rows: seq<seq<GuessRow>>)
    requires |words| >= 4
    ensures |rows| == 4
    ensures forall q :: 0 <= q < 4 ==> QuadrantRowsOk(rows[q], words[q], guess)
  {
    rows := [];
    var quadrant := 0;
    while quadrant < 4
      invariant 0 <= quadrant <= 4 && |rows| == quadrant
      invariant forall q :: 0 <= q < quadrant ==> QuadrantRowsOk(rows[q], words[q], guess)
    {
      var w := words[quadrant];
      var list: seq<GuessRow> := [];
      for k := 0 to |w.guesses|
        invariant |list| == k
        invariant forall i :: 0 <= i < k ==> list[i] == Attempt(w.guesses[i].0, w.guesses[i].1)
      {
        list := list + [Attempt(w.guesses[k].0, w.guesses[k].1)];
      }
      if w.solved.None? {
        list := list + [Current(guess)];
        while |list| < 5
          invariant |w.guesses| < |list| <= (if |w.guesses| + 1 < 5 then 5 else |w.guesses| + 1)
          invariant forall i :: 0 <= i < |w.guesses| ==> list[i] == Attempt(w.guesses[i].0, w.guesses[i].1)
          invariant list[|w.guesses|] == Current(guess)
          invariant forall i :: |w.guesses| < i < |list| ==> list[i] == Empty
          decreases 5 - |list|
        {
          list := list + [Empty];
        }
      }
      rows := rows + [list];
      quadrant := quadrant + 1;
    }
  }

  /** One quadrant's rows as `BuildRows` promises them. */
  ghost predicate QuadrantRowsOk(list: seq<GuessRow>, w: ApiSessionWord, guess: string)
  {
    && |list| == RowCount(w)
    && (forall i :: 0 <= i < |w.guesses| ==> list[i] == Attempt(w.guesses[i].0, w.guesses[i].1))
    && (w.solved.None? ==> list[|w.guesses|] == Current(guess))
    && (w.solved.None? ==> forall i :: |w.guesses| < i < |list| ==> list[i] == Empty)
  }

  /** The Save button of the account dialogs: a name that is not blank and
      at most `NameMaxLen` characters long. */
  predicate CanSaveName(name: string)
    ensures CanSaveName(name) ==> name != [] && |name| <= NameMaxLen
  {
    (exists i :: 0 <= i < |name| && !IsWhitespace(name[i])) && |name| <= NameMaxLen
  }

  /** A name the dialogs let through is still non-empty once trimmed. */
  lemma SavedNameIsNotBlank(name: string)
    requires CanSaveName(name)
    ensures Trim(name) != [] && |Trim(name)| <= NameMaxLen
  {
    var i :| 0 <= i < |name| && !IsWhitespace(name[i]);
    var lead := LeadingWhitespace(name);
    assert lead <= i;
  }

  /** The state `present()` keeps across key presses. */
  class GamePresenter {
    var selfId: Option<Uuid>
    var session: Option<ApiSession>
    var guess: string
    var loading: bool

    /** The buffer holds at most five lower-case letters, and a session
        snapshot always has a turn holder (its `turnId` is computed when it
        is built). */
    ghost predicate Valid()
      reads this
    {
      && (session.Some? ==> session.value.HasTurnHolder())
      && |guess| <= 5 && IsLowerLetters(guess)
    }

    constructor(selfId: Option<Uuid>)
      ensures Valid()
      ensures this.selfId == selfId && session.None? && guess == [] && !loading
    {
      this.selfId := selfId;
      session := None;
      guess := [];
      loading := false;
    }

    /** A snapshot pushed by the server replaces the local one. */
    method OnSessionUpdate(s: ApiSession)
      requires Valid() && s.HasTurnHolder()
      modifies this
      ensures Valid()
      ensures session == Some(s)
      ensures selfId == old(selfId) && guess == old(guess) && loading == old(loading)
    {
      session := Some(s);
    }

    /** `handleKeyPress`. Keys are ignored unless it is this account's turn;
        Enter submits a full buffer unless a request is in flight, and
        returns the text it sends; Backspace drops the last letter;
        a letter is added while fewer than five are typed. */
    method HandleKeyPress(key: KeyPress) returns (submitted: Option<string>)
      requires Valid() && selfId.Some? && session.Some?
      modifies this
      ensures Valid()
      ensures selfId == old(selfId) && session == old(session)
      ensures old(session).value.TurnId() != old(selfId).value ==>
                guess == old(guess) && loading == old(loading) && submitted.None?
      ensures old(session).value.TurnId() == old(selfId).value ==>
                match key
                case Enter =>
                  if |old(guess)| == 5 && !old(loading) then
                    guess == old(guess) && loading && submitted == Some(old(guess))
                  else
                    guess == old(guess) && loading == old(loading) && submitted.None?
                case Backspace =>
                  && guess == (if old(guess) == [] then [] else old(guess)[..|old(guess)| - 1])
                  && loading == old(loading) && submitted.None?
                case Letter(c) =>
                  && guess == (if |old(guess)| <= 4 then old(guess) + [c] else old(guess))
                  && loading == old(loading) && submitted.None?
    {
      submitted := None;
      if session.value.TurnId() != selfId.value {
        return;
      }
      match key {
        case Enter =>
          if |guess| != 5 {
            return;
          }
          if loading {
            return;
          }
          loading := true;
          submitted := Some(guess);
        case Backspace =>
          if guess != [] {
            guess := guess[..|guess| - 1];
          }
        case Letter(c) =>
          if |guess| > 4 {
            return;
          }
          guess := guess + [c];
      }
    }

    /** The end of the request Enter started. An accepted guess moves the
        local turn to the server's `nextTurn` (which must be present and
        name a peer, or the copy of the snapshot fails) and clears the
        buffer; a rejected one leaves both. Either way the screen stops
        waiting. */
    method CompleteGuess(resp: Result<ApiGuess, string>)
      requires Valid() && session.Some?
      requires resp.Success? ==>
                 resp.value.nextTurn.Some? && 0 <= resp.value.nextTurn.value < |session.value.peers|
      modifies this
      ensures Valid()
      ensures !loading && selfId == old(selfId)
      ensures resp.Success? ==>
                session == Some(old(session).value.(turn := resp.value.nextTurn.value)) && guess == []
      ensures resp.Failure? ==> session == old(session) && guess == old(guess)
    {
      if resp.Success? {
        session := Some(session.value.(turn := resp.value.nextTurn.value));
        guess := [];
      }
      loading := false;
    }
  }
}
