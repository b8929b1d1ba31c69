/** The word-list loader of plugins/Words.kt: two word lists are read line
    by line into the catalog at start-up, the allowed guesses first and the
    solutions second. File contents are passed in as sequences of lines, a
    missing file as `None`. */
module WordLoader {
  import opened Wrappers
  import opened Text
  import opened Words

  /** In development mode at most this many words are saved per list. */
  const DevModeWordsLimit: nat := 30

  predicate IsComment(line: string)
  {
    |line| > 0 && line[0] == '#'
  }

  /** A line the loader saves: five letters, in either case. */
  predicate ValidLine(line: string)
  {
    |line| == 5 && IsLetters(line)
  }

  /** The loader's counters after some lines, the lower-cased words handed to
      `create` so far, and whether the development cap has stopped the loop. */
  datatype Tally = Tally(saved: nat, errs: nat, accepted: seq<string>, stopped: bool)

  /** One iteration of the loop in `saveWords`. Comments are skipped before
      the development cap is looked at. */
  function Step(t: Tally, line: string, dev: bool): Tally
  {
    if t.stopped || IsComment(line) then t
    else if dev && t.saved >= DevModeWordsLimit then t.(stopped := true)
    else if !ValidLine(line) then t.(errs := t.errs + 1)
    else t.(saved := t.saved + 1, accepted := t.accepted + [Lower(line)])
  }

  /** One iteration changes nothing after the cap or on a comment, grows at
      most one counter by one, and hands on only a valid line, lower-cased. */
  lemma StepFacts(t: Tally, line: string, dev: bool)
    ensures var r := Step(t, line, dev);
      && (t.stopped || IsComment(line) ==> r == t)
      && r.saved + r.errs <= t.saved + t.errs + 1
      && (r.accepted == t.accepted || (r.accepted == t.accepted + [Lower(line)] && ValidLine(line)))
  {
  }

  /** The loop over all lines. */
  function Scan(lines: seq<string>, dev: bool): Tally
  {
    if lines == [] then Tally(0, 0, [], false)
    else Step(Scan(lines[..|lines| - 1], dev), lines[|lines| - 1], dev)
  }

  /** Number of lines that are not comments. */
  function CountContent(lines: seq<string>): nat
  {
    if lines == [] then 0
    else CountContent(lines[..|lines| - 1]) + (if IsComment(lines[|lines| - 1]) then 0 else 1)
  }

  /** What the loader promises about its counters: `saved` counts the words
      handed on, each of them five lower-case letters; in development mode
      it never passes the cap; every saved or rejected line is a distinct
      non-comment line; and without the cap nothing stops the loop. */
  lemma {:induction false} ScanFacts(lines: seq<string>, dev: bool)
    ensures var t := Scan(lines, dev);
      && t.saved == |t.accepted|
      && (forall i :: 0 <= i < |t.accepted| ==> |t.accepted[i]| == 5 && IsLowerLetters(t.accepted[i]))
      && (dev ==> t.saved <= DevModeWordsLimit)
      && t.saved + t.errs <= CountContent(lines)
      && (!dev ==> !t.stopped && t.saved + t.errs == CountContent(lines))
  {
    if lines != [] {
      var init := lines[..|lines| - 1];
      var line := lines[|lines| - 1];
      ScanFacts(init, dev);
      if !Scan(init, dev).stopped && !IsComment(line) && ValidLine(line)
         && !(dev && Scan(init, dev).saved >= DevModeWordsLimit) {
        LowerFacts(line);
      }
    }
  }

  /** Without the cap, exactly the valid non-comment lines are saved, in
      order and lower-cased. */
  lemma {:induction false} ScanAcceptsValidLines(lines: seq<string>)
    ensures Scan(lines, false).accepted == Accepted(lines)
  {
    if lines != [] {
      ScanAcceptsValidLines(lines[..|lines| - 1]);
      ScanFacts(lines[..|lines| - 1], false);
    }
  }

  /** The lower-cased valid non-comment lines, in order. */
  function Accepted(lines: seq<string>): seq<string>
  {
    if lines == [] then []
    else
      var line := lines[|lines| - 1];
      Accepted(lines[..|lines| - 1]) + (if !IsComment(line) && ValidLine(line) then [Lower(line)] else [])
  }

  /** The catalog after creating every word of `words` in order with one
      flag; the first conflict aborts. */
  function InsertAll(catalog: Catalog, words: seq<string>, solution: bool): Result<Catalog, string>
  {
    if words == [] then Success(catalog)
    else
      match InsertAll(catalog, words[..|words| - 1], solution)
      case Failure(e) => Failure(e)
      case Success(c) =>
        match Insert(c, words[|words| - 1], solution)
        case Failure(e) => Failure(e)
        case Success(p) => Success(p.1)
  }

  /** After a successful load every loaded word carries the list's flag,
      and nothing else changed flag. */
  lemma {:induction false} InsertAllFlags(catalog: Catalog, words: seq<string>, solution: bool)
    requires InsertAll(catalog, words, solution).Success?
    ensures var c := InsertAll(catalog, words, solution).value;
      && (forall i :: 0 <= i < |words| ==> Lower(words[i]) in c && c[Lower(words[i])] == solution)
      && (forall txt :: txt in catalog ==> txt in c && c[txt] == catalog[txt])
      && (forall txt :: txt in c ==> txt in catalog || exists i :: 0 <= i < |words| && txt == Lower(words[i]))
  {
    if words != [] {
      var init := words[..|words| - 1];
      InsertAllFlags(catalog, init, solution);
      var c := InsertAll(catalog, init, solution).value;
      var last := words[|words| - 1];
      var d := InsertAll(catalog, words, solution).value;
      assert d == c[Lower(last) := solution];
      forall i | 0 <= i < |words|
        ensures Lower(words[i]) in d && d[Lower(words[i])] == solution
      {
        if i < |words| - 1 {
          assert words[i] == init[i];
        }
      }
      forall txt | txt in d
        ensures txt in catalog || exists i :: 0 <= i < |words| && txt == Lower(words[i])
      {
        if txt != Lower(last) && txt !in catalog {
          var i :| 0 <= i < |init| && txt == Lower(init[i]);
          assert words[i] == init[i];
        }
      }
    }
  }

  /** A word already stored with the other flag makes the load fail. Since
      the allowed list is loaded first with `false`, a word that is in both
      lists makes the solutions list fail. */
  lemma {:induction false} InsertAllConflict(catalog: Catalog, words: seq<string>, solution: bool, k: nat)
    requires k < |words| && Lower(words[k]) in catalog && catalog[Lower(words[k])] != solution
    ensures InsertAll(catalog, words, solution).Failure?
  {
    var init := words[..|words| - 1];
    if k < |words| - 1 {
      assert words[k] == init[k];
      InsertAllConflict(catalog, init, solution, k);
    } else if InsertAll(catalog, init, solution).Success? {
      InsertAllFlags(catalog, init, solution);
    }
  }

  /** Both lists in sequence: an allowed word that is also a solution
      makes the second list fail. */
  lemma BothListsConflict(catalog: Catalog, allowed: seq<string>, solutions: seq<string>, i: nat, j: nat)
    requires InsertAll(catalog, allowed, false).Success?
    requires i < |allowed| && j < |solutions| && Lower(allowed[i]) == Lower(solutions[j])
    ensures InsertAll(InsertAll(catalog, allowed, false).value, solutions, true).Failure?
  {
    InsertAllFlags(catalog, allowed, false);
    InsertAllConflict(InsertAll(catalog, allowed, false).value, solutions, true, j);
  }

  /** `saveWords`: the loop over the lines of one list, creating every
      valid word. The `Failure` is the conflict that `create` throws, which
      leaves the words created before it in place until the transaction
      of `ConfigureWords` rolls back. */
  method SaveWords(service: WordsService, lines: seq<string>, solution: bool, dev: bool)
      returns (r: Result<(nat, nat), string>)
    requires service.Valid()
    modifies service
    ensures service.Valid()
    ensures var t := Scan(lines, dev);
      var ins := InsertAll(old(service.catalog), t.accepted, solution);
      && (r.Success? <==> ins.Success?)
      && (r.Success? ==> r.value == (t.saved, t.errs) && service.catalog == ins.value)
  {
    var saved: nat := 0;
    var errs: nat := 0;
    var i := 0;
    ghost var t := Tally(0, 0, [], false);
    while i < |lines|
      invariant 0 <= i <= |lines|
      invariant service.Valid()
      invariant t == Scan(lines[..i], dev) && !t.stopped
      invariant saved == t.saved && errs == t.errs
      invariant InsertAll(old(service.catalog), t.accepted, solution) == Success(service.catalog)
    {
      var line := lines[i];
      ScanStep(lines, i, dev);
      if IsComment(line) {
        i := i + 1;
        continue;
      }
      if dev && saved >= DevModeWordsLimit {
        StopIsFinal(lines, i + 1, dev);
        break;
      }
      if !ValidLine(line) {
        errs := errs + 1;
        t := t.(errs := t.errs + 1);
        i := i + 1;
        continue;
      }
      var created := service.Create(Lower(line), solution);
      LowerFacts(line);
      assert Lower(Lower(line)) == Lower(line);
      assert (t.accepted + [Lower(line)])[..|t.accepted|] == t.accepted;
      if created.Failure? {
        LoadFailureIsFinal(old(service.catalog), lines, i + 1, dev, solution);
        return Failure(created.error);
      }
      saved := saved + 1;
      t := t.(saved := t.saved + 1, accepted := t.accepted + [Lower(line)]);
      i := i + 1;
    }
    if i == |lines| {
      assert lines[..i] == lines;
    }
    return Success((saved, errs));
  }

  lemma ScanStep(lines: seq<string>, i: nat, dev: bool)
    requires i < |lines|
    ensures Scan(lines[..i + 1], dev) == Step(Scan(lines[..i], dev), lines[i], dev)
  {
    assert lines[..i + 1][..i] == lines[..i];
  }

  /** The words accepted from a prefix of the lines are a prefix of the
      words accepted from all of them. */
  lemma {:induction false} ScanExtends(lines: seq<string>, n: nat, dev: bool)
    requires n <= |lines|
    ensures var a := Scan(lines[..n], dev).accepted;
      |a| <= |Scan(lines, dev).accepted| && Scan(lines, dev).accepted[..|a|] == a
    decreases |lines| - n
  {
    if n < |lines| {
      ScanExtends(lines, n + 1, dev);
      ScanStep(lines, n, dev);
    } else {
      assert lines[..n] == lines;
    }
  }

  /** A conflict on a prefix of the words is a conflict on all of them. */
  lemma {:induction false} InsertAllFailureExtends(catalog: Catalog, words: seq<string>, n: nat, solution: bool)
    requires n <= |words| && InsertAll(catalog, words[..n], solution).Failure?
    ensures InsertAll(catalog, words, solution).Failure?
    decreases |words| - n
  {
    if n < |words| {
      assert words[..n + 1][..n] == words[..n];
      InsertAllFailureExtends(catalog, words, n + 1, solution);
    } else {
      assert words[..n] == words;
    }
  }

  lemma LoadFailureIsFinal(catalog: Catalog, lines: seq<string>, n: nat, dev: bool, solution: bool)
    requires n <= |lines| && InsertAll(catalog, Scan(lines[..n], dev).accepted, solution).Failure?
    ensures InsertAll(catalog, Scan(lines, dev).accepted, solution).Failure?
  {
    ScanExtends(lines, n, dev);
    var a := Scan(lines[..n], dev).accepted;
    InsertAllFailureExtends(catalog, Scan(lines, dev).accepted, |a|, solution);
  }

  /** Once the cap has stopped the loop, later lines change nothing. */
  lemma {:induction false} StopIsFinal(lines: seq<string>, n: nat, dev: bool)
    requires n <= |lines| && Scan(lines[..n], dev).stopped
    ensures Scan(lines, dev) == Scan(lines[..n], dev)
    decreases |lines| - n
  {
    if n < |lines| {
      ScanStep(lines, n, dev);
      StopIsFinal(lines, n + 1, dev);
    } else {
      assert lines[..n] == lines;
    }
  }

  /** `configureWords`: both files must exist before anything is loaded;
      then both lists are loaded in one transaction, which leaves the
      catalog as it was if a conflict aborts it. */
  method ConfigureWords(service: WordsService, allowed: Option<seq<string>>, solutions: Option<seq<string>>, dev: bool)
      returns (r: Result<((nat, nat), (nat, nat)), string>)
    requires service.Valid()
    modifies service
    ensures service.Valid()
    ensures allowed.None? ==> r == Failure("file allowed required")
    ensures allowed.Some? && solutions.None? ==> r == Failure("file real required")
    ensures r.Failure? ==> service.catalog == old(service.catalog)
    ensures r.Success? ==>
              && allowed.Some? && solutions.Some?
              && var first := InsertAll(old(service.catalog), Scan(allowed.value, dev).accepted, false);
                 && first.Success?
                 && InsertAll(first.value, Scan(solutions.value, dev).accepted, true) == Success(service.catalog)
                 && r.value == ((Scan(allowed.value, dev).saved, Scan(allowed.value, dev).errs),
                                (Scan(solutions.value, dev).saved, Scan(solutions.value, dev).errs))
  {
    if allowed.None? {
      return Failure("file allowed required");
    }
    if solutions.None? {
      return Failure("file real required");
    }
    var snapshot := service.catalog;
    var allowedRes := SaveWords(service, allowed.value, false, dev);
    if allowedRes.Failure? {
      service.catalog := snapshot;
      return Failure(allowedRes.error);
    }
    var solutionsRes := SaveWords(service, solutions.value, true, dev);
    if solutionsRes.Failure? {
      service.catalog := snapshot;
      return Failure(solutionsRes.error);
    }
    r := Success((allowedRes.value, solutionsRes.value));
  }
}
