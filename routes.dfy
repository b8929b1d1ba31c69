/** The guess endpoint of routes/Sessions.kt: the request body is trimmed,
    checked to be five letters and lower-cased before the session service
    sees it. */
module Routes {
  import opened Wrappers
  import opened Text
  import opened Entities
  import opened Scoring
  import opened Sessions

  /** `GuessParams.sanitize()`: only the text is trimmed. */
  function Sanitize(p: GuessParams): (r: GuessParams)
    ensures r.sessionId == p.sessionId && r.accountId == p.accountId
    ensures |r.txt| <= |p.txt|
    ensures r.txt == Trim(p.txt)
  {
    p.(txt := Trim(p.txt))
  }

  /** The `valid` check of `post<Guesses>`. */
  predicate ValidGuessText(txt: string)
  {
    |txt| == 5 && IsLetters(txt)
  }

  /** What the endpoint hands to `createGuess`: nothing for a text that is
      not five letters after trimming (the request gets `BadRequest`), else
      the trimmed and lower-cased text with the ids untouched. */
  function Accept(p: GuessParams): (r: Option<GuessParams>)
    ensures r.Some? <==> ValidGuessText(Trim(p.txt))
    ensures r.Some? ==> r.value.sessionId == p.sessionId && r.value.accountId == p.accountId
    ensures r.Some? ==> r.value.txt == Lower(Trim(p.txt))
    ensures r.Some? ==> |r.value.txt| == 5 && IsLowerLetters(r.value.txt)
    // so it never holds the mark `buildCloud` uses for consumed letters,
    // and the cloud computed for it is the one `Cloud` defines
    ensures r.Some? ==> Consumed !in r.value.txt
  {
    var q := Sanitize(p);
    if ValidGuessText(q.txt) then
      LowerFacts(q.txt);
      Some(q.(txt := Lower(q.txt)))
    else None
  }

  /** Accepting is idempotent: a text that was accepted is accepted again
      unchanged, so surrounding whitespace and upper case are the only
      things the endpoint normalises away. */
  lemma AcceptIdempotent(p: GuessParams)
    requires Accept(p).Some?
    ensures Accept(Accept(p).value) == Accept(p)
  {
    var q := Accept(p).value;
    assert LeadingWhitespace(q.txt) == 0 by {
      assert !IsWhitespace(q.txt[0]);
    }
    assert TrailingWhitespace(q.txt) == 0 by {
      assert !IsWhitespace(q.txt[4]);
    }
    assert Trim(q.txt) == q.txt;
    LowerOfLowerLetters(q.txt);
  }

  /** The answer of `post<Guesses>`. */
  datatype GuessResponse = BadRequest(error: Option<FieldError>) | Created(guess: ApiGuess)

  /** `post<Guesses>`: invalid text is answered with `BadRequest` without
      reaching the session service; otherwise the accepted request goes to
      `createGuess`, whose error becomes `BadRequest` and whose guess is
      answered as created. */
  method PostGuess(service: SessionsService, p: GuessParams, catalog: map<string, bool>, accounts: map<Uuid, string>)
      returns (resp: GuessResponse)
    requires service.Valid()
    requires Accept(p).Some? ==> p.sessionId in service.sessions && p.accountId in accounts
    modifies service
    ensures service.Valid()
    ensures Accept(p).None? ==> resp == BadRequest(None) && service.sessions == old(service.sessions)
    ensures resp.Created? ==>
              && Accept(p).Some?
              && resp.guess.txt == Accept(p).value.txt
              && resp.guess.sessionId == p.sessionId && resp.guess.accountId == p.accountId
    ensures Accept(p).Some? ==>
              var q := Accept(p).value;
              var s := old(service.sessions)[q.sessionId];
              if s.turn != IndexOfFirst(s.peers, q.accountId) then
                && resp == BadRequest(Some(FieldError("accountId", Constraint(None, Some("turn")))))
                && service.sessions == old(service.sessions)
              else if q.txt !in catalog then
                resp == BadRequest(Some(FieldError("txt", Reference))) && service.sessions == old(service.sessions)
              else
                && resp == Created(ApiGuess(q.txt, q.accountId, q.sessionId, |s.guesses|, Some(NextTurn(s.turn, |s.peers|))))
                && service.sessions == old(service.sessions)[q.sessionId := AfterGuess(s, q.accountId, q.txt)]
  {
    var req := Sanitize(p);
    var valid := |req.txt| == 5 && IsLetters(req.txt);
    if !valid {
      return BadRequest(None);
    }
    var txt := Lower(req.txt);
    var r := service.CreateGuess(req.sessionId, req.accountId, txt, catalog, accounts);
    match r {
      case Failure(e) => resp := BadRequest(Some(e));
      case Success(g) => resp := Created(g);
    }
  }
}
