/** The data shared by server and client (shared/.../api/entities.kt): the
    letter statuses and their order, the session snapshot with its derived
    `turnId`, `isSolved`, `isOver` and `status()`. */
module Entities {
  import opened Wrappers

  /** Accounts, sessions and words are identified by UUIDs; the model only
      compares them, so any countable type will do. */
  type Uuid = nat

  /** Longest account name the client accepts. */
  const NameMaxLen: nat := 20

  /** `ApiCharStatus`. The declaration order gives the ordinal, and the
      lowest ordinal is the best news for the player. */
  datatype CharStatus = Correct | Kinda | Wrong

  function Ordinal(s: CharStatus): nat
  {
    match s
    case Correct => 0
    case Kinda => 1
    case Wrong => 2
  }

  /** Ordinals rank Correct before Kinda before Wrong, and tell statuses apart. */
  lemma OrdinalOrder(a: CharStatus, b: CharStatus)
    ensures Ordinal(Correct) < Ordinal(Kinda) < Ordinal(Wrong)
    ensures Ordinal(a) == Ordinal(b) <==> a == b
    ensures Ordinal(Correct) <= Ordinal(a) <= Ordinal(Wrong)
  {
  }

  /** One guessed letter with its verdict. */
  datatype ApiChar = ApiChar(ch: char, status: CharStatus)

  /** Best status seen per letter. */
  type Keyboard = map<char, CharStatus>

  datatype ApiAccount = ApiAccount(id: Uuid, name: string)

  /** One quadrant as clients see it: the word (null until solved), the
      position of the solving guess, the rated guesses with their authors,
      and the keyboard summary. */
  datatype ApiSessionWord = ApiSessionWord(
    word: Option<string>,
    solved: Option<int>,
    guesses: seq<(seq<ApiChar>, Uuid)>,
    keyboard: Keyboard)

  /** `ApiSession.SessionState`. */
  datatype SessionState = Loading(connected: int) | Game | Done(solved: bool)

  /** The snapshot a client receives (`createdAt` is left out). */
  datatype ApiSession = ApiSession(
    id: Uuid,
    turn: int,
    size: int,
    limit: Option<int>,
    peers: seq<ApiAccount>,
    words: seq<ApiSessionWord>)
  {
    /** `turnId = peers[turn].id`, evaluated when the snapshot is built: a
        snapshot whose turn does not index a peer cannot be constructed. */
    predicate HasTurnHolder()
    {
      0 <= turn < |peers|
    }

    function TurnId(): (r: Uuid)
      requires HasTurnHolder()
      ensures exists i :: 0 <= i < |peers| && peers[i].id == r
    {
      peers[turn].id
    }

    /** `isSolved`: every quadrant has a solving position. */
    predicate IsSolved()
      ensures words == [] ==> IsSolved()
    {
      forall i :: 0 <= i < |words| ==> words[i].solved.Some?
    }

    /** `isOver`: solved, or some quadrant's guess count equals the limit
        (Kotlin compares `Int == Int?`, so a null limit never matches). */
    predicate IsOver()
      ensures IsSolved() ==> IsOver()
      ensures limit.None? ==> (IsOver() <==> IsSolved())
    {
      IsSolved() || (limit.Some? && exists i :: 0 <= i < |words| && |words[i].guesses| == limit.value)
    }

    /** `status()`. */
    function Status(): (r: SessionState)
      ensures r.Loading? <==> |peers| != size
      ensures r.Loading? ==> r.connected == |peers|
      ensures r.Done? ==> r.solved == IsSolved() && IsOver()
    {
      if |peers| != size then Loading(|peers|)
      else if IsOver() then Done(IsSolved())
      else Game
    }
  }

  /** The three outcomes of `status()`, each with the condition that selects it. */
  lemma StatusCases(a: ApiSession)
    ensures a.Status() == Loading(|a.peers|) <==> |a.peers| != a.size
    ensures a.Status() == Done(a.IsSolved()) <==> |a.peers| == a.size && a.IsOver()
    ensures a.Status() == Game <==> |a.peers| == a.size && !a.IsOver()
    ensures a.Status().Done? && a.Status().solved ==> a.IsSolved()
  {
  }

  /** With no limit the game ends only by solving every quadrant. */
  lemma NoLimitOverMeansSolved(a: ApiSession)
    requires a.limit.None?
    ensures a.IsOver() <==> a.IsSolved()
  {
  }

  /** Because `isOver` compares with `==`, an unsolved snapshot in which
      every quadrant has gone past the limit is not over: the game
      reopens if more guesses are accepted after the limit is reached. */
  lemma PastLimitIsNotOver(a: ApiSession)
    requires a.limit.Some? && !a.IsSolved()
    requires forall i :: 0 <= i < |a.words| ==> |a.words[i].guesses| > a.limit.value
    ensures !a.IsOver()
  {
  }

  /** `ApiGuess`: the stored guess and the turn that follows it. */
  datatype ApiGuess = ApiGuess(txt: string, accountId: Uuid, sessionId: Uuid, pos: int, nextTurn: Option<int>)

  /** `GuessParams`, the body of a guess request. */
  datatype GuessParams = GuessParams(sessionId: Uuid, accountId: Uuid, txt: string)

  /** `ApiWord` (its UUID is left out: the text identifies a word). */
  datatype ApiWord = ApiWord(txt: string, solution: bool)

  /** `ApiError`, reduced to the kinds and attributes the core produces;
      the offending value's text is not carried. */
  datatype ApiError =
    | Constraint(max: Option<int>, eq: Option<string>)
    | Reference

  /** `field err error`: an error attached to a request field. */
  datatype FieldError = FieldError(field: string, error: ApiError)
}
