/** The scoring engine of services/SessionsService.kt: `buildCloud` rates a
    guess against a word, `buildClouds` rates a guess history,
    `cloudsToRatings` pairs each verdict with its letter, `buildKeyboard`
    keeps the best verdict per letter, and `whileTake` cuts a history just
    after its first failing element.

    `Cloud` below is an independent, declarative statement of what a rating
    must be; the method `BuildCloud` follows the source's two passes over a
    mutable copy of the word and is proved to compute it. */
module Scoring {
  import opened Wrappers
  import opened Entities

  /** The character `buildCloud` writes over a letter of the word once that
      letter has earned a verdict. */
  const Consumed: char := '-'

  /** `String.replaceFirst(c, '-')`: the first copy of `c` becomes the
      consumed marker. */
  function ReplaceFirst(s: string, c: char): (r: string)
    ensures |r| == |s|
    ensures forall i :: 0 <= i < |s| && s[i] != c ==> r[i] == s[i]
  {
    if s == [] then s
    else if s[0] == c then [Consumed] + s[1..]
    else [s[0]] + ReplaceFirst(s[1..], c)
  }

  /** Replacing consumes one copy of `c` when there is one, leaves every
      other letter's count alone, and changes nothing when `c` is absent. */
  lemma {:induction false} ReplaceFirstCounts(s: string, c: char)
    ensures c in s && c != Consumed ==> multiset(ReplaceFirst(s, c))[c] == multiset(s)[c] - 1
    ensures c in s && c != Consumed ==> multiset(ReplaceFirst(s, c))[Consumed] == multiset(s)[Consumed] + 1
    ensures forall x :: x != c && x != Consumed ==> multiset(ReplaceFirst(s, c))[x] == multiset(s)[x]
    ensures c !in s ==> ReplaceFirst(s, c) == s
  {
    if s != [] {
      var r := ReplaceFirst(s, c);
      assert multiset(s) == multiset{s[0]} + multiset(s[1..]) by { assert s == [s[0]] + s[1..]; }
      if s[0] == c {
        assert multiset(r) == multiset{Consumed} + multiset(s[1..]) by { assert r == [Consumed] + s[1..]; }
      } else {
        ReplaceFirstCounts(s[1..], c);
        assert multiset(r) == multiset{s[0]} + multiset(ReplaceFirst(s[1..], c)) by {
          assert r == [s[0]] + ReplaceFirst(s[1..], c);
        }
      }
    }
  }

  /** The replaced copy is the first one: everything before it is kept. */
  lemma {:induction false} ReplaceFirstIsFirst(s: string, c: char, k: nat)
    requires k < |s| && s[k] == c && c !in s[..k]
    ensures ReplaceFirst(s, c) == s[..k] + [Consumed] + s[k + 1..]
  {
    if k > 0 {
      assert s[1..][..k - 1] == s[1..k];
      assert c !in s[1..][..k - 1];
      ReplaceFirstIsFirst(s[1..], c, k - 1);
      assert s[..k] == [s[0]] + s[1..k];
    }
  }

  // ---------------------------------------------------------------------
  // The declarative rating

  /** Positions before `n` where guess and word both hold the letter `c`. */
  function Hits(word: string, guess: string, c: char, n: nat): nat
    requires n <= |guess| <= |word|
  {
    if n == 0 then 0
    else Hits(word, guess, c, n - 1) + (if guess[n - 1] == c && word[n - 1] == c then 1 else 0)
  }

  /** Positions before `n` where the guess holds `c` and the word another letter. */
  function Misses(word: string, guess: string, c: char, n: nat): nat
    requires n <= |guess| <= |word|
  {
    if n == 0 then 0
    else Misses(word, guess, c, n - 1) + (if guess[n - 1] == c && word[n - 1] != c then 1 else 0)
  }

  /** Copies of `c` in the word that no exact match claims. */
  function Spare(word: string, guess: string, c: char): int
    requires |guess| <= |word|
  {
    multiset(word)[c] - Hits(word, guess, c, |guess|)
  }

  /** The verdict at position `i`: exact matches are Correct; a misplaced
      letter is Kinda while the misplaced copies of it to its left have not
      yet used up the spare copies in the word; everything else is Wrong. */
  function Mark(word: string, guess: string, i: nat): CharStatus
    requires |guess| <= |word| && i < |word|
  {
    if i >= |guess| then Wrong
    else if guess[i] == word[i] then Correct
    else if Misses(word, guess, guess[i], i) < Spare(word, guess, guess[i]) then Kinda
    else Wrong
  }

  /** The rating `buildCloud(word, guess)` must produce: one verdict per
      letter of the word. */
  function Cloud(word: string, guess: string): seq<CharStatus>
    requires |guess| <= |word|
  {
    seq(|word|, i requires 0 <= i < |word| => Mark(word, guess, i))
  }

  /** Positions before `n` at which the guess holds `c` and the rating gives
      credit (Correct or Kinda). */
  function Credits(cloud: seq<CharStatus>, guess: string, c: char, n: nat): nat
    requires n <= |guess| && n <= |cloud|
  {
    if n == 0 then 0
    else Credits(cloud, guess, c, n - 1) + (if guess[n - 1] == c && cloud[n - 1] != Wrong then 1 else 0)
  }

  lemma {:induction false} HitsWithinPrefix(word: string, guess: string, c: char, n: nat)
    requires n <= |guess| <= |word|
    ensures Hits(word, guess, c, n) <= multiset(word[..n])[c]
  {
    if n > 0 {
      HitsWithinPrefix(word, guess, c, n - 1);
      assert word[..n] == word[..n - 1] + [word[n - 1]];
    }
  }

  /** Exact matches never claim more copies of a letter than the word has. */
  lemma SpareNonNegative(word: string, guess: string, c: char)
    requires |guess| <= |word|
    ensures Spare(word, guess, c) >= 0
  {
    HitsWithinPrefix(word, guess, c, |guess|);
    assert word == word[..|guess|] + word[|guess|..];
  }

  lemma {:induction false} MissesMonotone(word: string, guess: string, c: char, m: nat, n: nat)
    requires m <= n <= |guess| <= |word|
    ensures Misses(word, guess, c, m) <= Misses(word, guess, c, n)
    decreases n - m
  {
    if m < n {
      MissesMonotone(word, guess, c, m, n - 1);
    }
  }

  lemma {:induction false} HitsPlusMisses(word: string, guess: string, c: char, n: nat)
    requires n <= |guess| <= |word|
    ensures Hits(word, guess, c, n) + Misses(word, guess, c, n) == multiset(guess[..n])[c]
  {
    if n > 0 {
      HitsPlusMisses(word, guess, c, n - 1);
      assert guess[..n] == guess[..n - 1] + [guess[n - 1]];
    }
  }

  /** The credited positions of `c` up to `n` are its exact matches plus as
      many of its misplaced copies as the spare copies allow. */
  lemma {:induction false} CreditsSplit(word: string, guess: string, c: char, n: nat)
    requires n <= |guess| <= |word|
    ensures Credits(Cloud(word, guess), guess, c, n)
         == Hits(word, guess, c, n) + Min(Misses(word, guess, c, n), Spare(word, guess, c))
  {
    SpareNonNegative(word, guess, c);
    if n > 0 {
      CreditsSplit(word, guess, c, n - 1);
    }
  }

  /** Shape of a rating: one verdict per letter of the word, Correct exactly
      at the exact matches, and Wrong past the end of a shorter guess. */
  lemma CloudShape(word: string, guess: string)
    requires |guess| <= |word|
    ensures |Cloud(word, guess)| == |word|
    ensures forall i :: 0 <= i < |word| ==>
              (Cloud(word, guess)[i] == Correct <==> i < |guess| && guess[i] == word[i])
    ensures forall i :: |guess| <= i < |word| ==> Cloud(word, guess)[i] == Wrong
  {
  }

  /** Letter credit is never over-counted, and never withheld: for every
      letter, the positions rated Correct or Kinda number exactly the smaller
      of its count in the guess and its count in the word. */
  lemma CreditsAreMinOfCounts(word: string, guess: string, c: char)
    requires |guess| <= |word|
    ensures Credits(Cloud(word, guess), guess, c, |guess|) == Min(multiset(guess)[c], multiset(word)[c])
    ensures Credits(Cloud(word, guess), guess, c, |guess|) <= multiset(word)[c]
  {
    CreditsSplit(word, guess, c, |guess|);
    HitsPlusMisses(word, guess, c, |guess|);
    assert guess[..|guess|] == guess;
  }

  /** Kinda goes left to right: a misplaced copy of a letter that earned
      Kinda is preceded only by misplaced copies that earned Kinda too. */
  lemma KindaGoesLeftmost(word: string, guess: string, j: nat, i: nat)
    requires |guess| <= |word| && j < i < |guess|
    requires guess[j] == guess[i] && guess[j] != word[j]
    requires Cloud(word, guess)[i] == Kinda
    ensures Cloud(word, guess)[j] == Kinda
  {
    MissesMonotone(word, guess, guess[i], j + 1, i);
  }

  /** A letter rated Wrong has used up every copy of it in the word. */
  lemma WrongMeansUsedUp(word: string, guess: string, i: nat)
    requires i < |guess| <= |word|
    requires Cloud(word, guess)[i] == Wrong
    ensures Credits(Cloud(word, guess), guess, guess[i], |guess|) == multiset(word)[guess[i]]
  {
    var c := guess[i];
    MissesMonotone(word, guess, c, i, |guess|);
    CreditsSplit(word, guess, c, |guess|);
  }

  // ---------------------------------------------------------------------
  // buildCloud, buildClouds

  /** What is left of the word once the exact matches before `i` have been
      consumed: `rest` agrees with it on every letter. */
  ghost predicate LeftAfterHits(word: string, guess: string, rest: string, i: nat)
    requires i <= |guess| <= |word|
  {
    forall c :: c != Consumed ==> multiset(rest)[c] == multiset(word)[c] - Hits(word, guess, c, i)
  }

  /** What is left of the word once, in addition, the misplaced letters
      before `i` have taken the spare copies they could. */
  ghost predicate LeftAfterMisses(word: string, guess: string, rest: string, i: nat)
    requires i <= |guess| <= |word|
  {
    forall c :: c != Consumed ==>
      multiset(rest)[c] == Spare(word, guess, c) - Min(Misses(word, guess, c, i), Spare(word, guess, c))
  }

  /** One step of the first pass. */
  lemma FirstPassStep(word: string, guess: string, rest: string, i: nat)
    requires i < |guess| <= |word| && Consumed !in guess
    requires LeftAfterHits(word, guess, rest, i)
    ensures guess[i] == word[i] ==> word[i] in rest && LeftAfterHits(word, guess, ReplaceFirst(rest, word[i]), i + 1)
    ensures guess[i] != word[i] ==> LeftAfterHits(word, guess, rest, i + 1)
  {
    var w := word[i];
    if guess[i] == w {
      HitsWithinPrefix(word, guess, w, i + 1);
      assert word == word[..i + 1] + word[i + 1..];
      assert multiset(rest)[w] > 0;
      var next := ReplaceFirst(rest, w);
      ReplaceFirstCounts(rest, w);
      forall c | c != Consumed
        ensures multiset(next)[c] == multiset(word)[c] - Hits(word, guess, c, i + 1)
      {
        if c != w {
          assert multiset(next)[c] == multiset(rest)[c];
        }
      }
    } else {
      forall c | c != Consumed
        ensures multiset(rest)[c] == multiset(word)[c] - Hits(word, guess, c, i + 1)
      {
        assert Hits(word, guess, c, i + 1) == Hits(word, guess, c, i);
      }
    }
  }

  /** Between the passes: nothing misplaced has been consumed yet. */
  lemma PassesMeet(word: string, guess: string, rest: string)
    requires |guess| <= |word|
    requires LeftAfterHits(word, guess, rest, |guess|)
    ensures LeftAfterMisses(word, guess, rest, 0)
  {
    forall c | c != Consumed
      ensures multiset(rest)[c] == Spare(word, guess, c) - Min(Misses(word, guess, c, 0), Spare(word, guess, c))
    {
      SpareNonNegative(word, guess, c);
    }
  }

  /** The first `n` verdicts of `cloud` are those of the declarative rating. */
  ghost predicate MarkedBefore(word: string, guess: string, cloud: seq<CharStatus>, n: nat)
    requires |guess| <= |word| == |cloud| && n <= |word|
  {
    forall j :: 0 <= j < n ==> cloud[j] == Mark(word, guess, j)
  }

  /** Where the second pass stands before position `i`: the verdicts there
      are final and `rest` holds what the misplaced letters left over. */
  ghost predicate SecondPassAt(word: string, guess: string, cloud: seq<CharStatus>, rest: string, i: nat)
    requires i <= |guess| <= |word| == |cloud|
  {
    MarkedBefore(word, guess, cloud, i) && LeftAfterMisses(word, guess, rest, i)
  }

  /** One step of the second pass: the letter at `i` takes a spare copy
      exactly when the declarative rating calls it Kinda. */
  lemma SecondPassStep(word: string, guess: string, cloud: seq<CharStatus>, rest: string, i: nat)
    requires i < |guess| <= |word| == |cloud| && Consumed !in guess
    requires cloud[i] == (if guess[i] == word[i] then Correct else Wrong)
    requires SecondPassAt(word, guess, cloud, rest, i)
    ensures guess[i] in rest && cloud[i] == Wrong ==>
              SecondPassAt(word, guess, cloud[i := Kinda], ReplaceFirst(rest, guess[i]), i + 1)
    ensures !(guess[i] in rest && cloud[i] == Wrong) ==> SecondPassAt(word, guess, cloud, rest, i + 1)
  {
    var g := guess[i];
    SpareNonNegative(word, guess, g);
    assert g in rest <==> multiset(rest)[g] > 0;
    var take := g in rest && cloud[i] == Wrong;
    var next := if take then ReplaceFirst(rest, g) else rest;
    var marks := if take then cloud[i := Kinda] else cloud;
    ReplaceFirstCounts(rest, g);
    forall c | c != Consumed
      ensures multiset(next)[c]
           == Spare(word, guess, c) - Min(Misses(word, guess, c, i + 1), Spare(word, guess, c))
    {
      SpareNonNegative(word, guess, c);
      if c != g {
        assert Misses(word, guess, c, i + 1) == Misses(word, guess, c, i);
        assert multiset(next)[c] == multiset(rest)[c];
      }
    }
    assert marks[i] == Mark(word, guess, i);
    assert MarkedBefore(word, guess, marks, i + 1);
  }

  /** The verdicts after the first loop has visited the positions before
      `n`: Correct at exact matches there, Wrong everywhere else. */
  function ExactMarks(word: string, guess: string, n: nat): (r: seq<CharStatus>)
    requires n <= |guess| <= |word|
    ensures |r| == |word|
  {
    seq(|word|, j requires 0 <= j < |word| => if j < n && guess[j] == word[j] then Correct else Wrong)
  }

  /** The copy of the word after the first loop has visited the positions
      before `n`. */
  ghost function ExactRest(word: string, guess: string, n: nat): (r: string)
    requires n <= |guess| <= |word|
    ensures |r| == |word|
  {
    if n == 0 then word
    else
      var rest := ExactRest(word, guess, n - 1);
      if word[n - 1] == guess[n - 1] then ReplaceFirst(rest, word[n - 1]) else rest
  }

  /** Verdicts and copy of the word after the second loop has visited the
      positions before `n`. */
  ghost function Misplaced(word: string, guess: string, n: nat): (r: (seq<CharStatus>, string))
    requires n <= |guess| <= |word|
    ensures |r.0| == |r.1| == |word|
  {
    if n == 0 then (ExactMarks(word, guess, |guess|), ExactRest(word, guess, |guess|))
    else
      var (cloud, rest) := Misplaced(word, guess, n - 1);
      var g := guess[n - 1];
      if g in rest && cloud[n - 1] == Wrong then (cloud[n - 1 := Kinda], ReplaceFirst(rest, g))
      else (cloud, rest)
  }

  lemma {:induction false} ExactRestLeft(word: string, guess: string, n: nat)
    requires n <= |guess| <= |word| && Consumed !in guess
    ensures LeftAfterHits(word, guess, ExactRest(word, guess, n), n)
  {
    if n > 0 {
      ExactRestLeft(word, guess, n - 1);
      FirstPassStep(word, guess, ExactRest(word, guess, n - 1), n - 1);
    }
  }

  /** The second loop only turns Wrong into Kinda, and only where it has been. */
  lemma {:induction false} MisplacedShape(word: string, guess: string, n: nat)
    requires n <= |guess| <= |word|
    ensures forall j :: 0 <= j < |word| ==>
              (Misplaced(word, guess, n).0[j] == Correct <==> ExactMarks(word, guess, |guess|)[j] == Correct)
    ensures forall j :: n <= j < |word| ==> Misplaced(word, guess, n).0[j] == ExactMarks(word, guess, |guess|)[j]
  {
    if n > 0 {
      MisplacedShape(word, guess, n - 1);
    }
  }

  /** The second loop keeps `SecondPassAt` from one position to the next. */
  lemma MisplacedStep(word: string, guess: string, n: nat)
    requires 0 < n <= |guess| <= |word| && Consumed !in guess
    requires SecondPassAt(word, guess, Misplaced(word, guess, n - 1).0, Misplaced(word, guess, n - 1).1, n - 1)
    ensures SecondPassAt(word, guess, Misplaced(word, guess, n).0, Misplaced(word, guess, n).1, n)
  {
    MisplacedShape(word, guess, n - 1);
    var (cloud, rest) := Misplaced(word, guess, n - 1);
    assert cloud[n - 1] == ExactMarks(word, guess, |guess|)[n - 1];
    SecondPassStep(word, guess, cloud, rest, n - 1);
    var g := guess[n - 1];
    if g in rest && cloud[n - 1] == Wrong {
      assert Misplaced(word, guess, n) == (cloud[n - 1 := Kinda], ReplaceFirst(rest, g));
    } else {
      assert Misplaced(word, guess, n) == (cloud, rest);
    }
  }

  lemma {:induction false} MisplacedSound(word: string, guess: string, n: nat)
    requires n <= |guess| <= |word| && Consumed !in guess
    ensures SecondPassAt(word, guess, Misplaced(word, guess, n).0, Misplaced(word, guess, n).1, n)
  {
    if n == 0 {
      ExactRestLeft(word, guess, |guess|);
      PassesMeet(word, guess, ExactRest(word, guess, |guess|));
    } else {
      MisplacedSound(word, guess, n - 1);
      MisplacedStep(word, guess, n);
    }
  }

  /** The two loops together compute the declarative rating. */
  lemma PassesComputeCloud(word: string, guess: string)
    requires |guess| <= |word| && Consumed !in guess
    ensures Misplaced(word, guess, |guess|).0 == Cloud(word, guess)
  {
    MisplacedSound(word, guess, |guess|);
    MisplacedShape(word, guess, |guess|);
    var cloud := Misplaced(word, guess, |guess|).0;
    assert forall j :: 0 <= j < |word| ==> cloud[j] == Mark(word, guess, j);
  }

  /** `buildCloud`: a first loop over `word.zip(guess)` marks the exact
      matches Correct and consumes each from a copy of the word; a second
      loop over `guess` makes a position still Wrong Kinda when its letter
      remains in the copy, and consumes that copy. Guesses that contain the
      consumed marker itself are outside the declarative statement (a
      validated guess holds letters only). */
  method BuildCloud(word: string, guess: string) returns (cloud: seq<CharStatus>)
    requires |guess| <= |word|
    ensures |cloud| == |word|
    ensures forall i :: 0 <= i < |word| ==> (cloud[i] == Correct <==> i < |guess| && guess[i] == word[i])
    ensures Consumed !in guess ==> cloud == Cloud(word, guess)
  {
    var rest := word;
    cloud := seq(|word|, _ => Wrong);
    var i := 0;
    while i < |guess|
      invariant 0 <= i <= |guess|
      invariant cloud == ExactMarks(word, guess, i)
      invariant rest == ExactRest(word, guess, i)
    {
      if word[i] == guess[i] {
        cloud := cloud[i := Correct];
        rest := ReplaceFirst(rest, word[i]);
      }
      assert cloud == ExactMarks(word, guess, i + 1);
      i := i + 1;
    }

    i := 0;
    while i < |guess|
      invariant 0 <= i <= |guess|
      invariant (cloud, rest) == Misplaced(word, guess, i)
    {
      var g := guess[i];
      if g in rest && cloud[i] == Wrong {
        cloud := cloud[i := Kinda];
        rest := ReplaceFirst(rest, g);
      }
      i := i + 1;
    }
    MisplacedShape(word, guess, |guess|);
    if Consumed !in guess {
      PassesComputeCloud(word, guess);
    }
  }

  /** `buildClouds`: one rating per guess, in order. */
  function Clouds(word: string, guesses: seq<string>): (r: seq<seq<CharStatus>>)
    requires forall i :: 0 <= i < |guesses| ==> |guesses[i]| <= |word|
  {
    seq(|guesses|, i requires 0 <= i < |guesses| => Cloud(word, guesses[i]))
  }

  method BuildClouds(word: string, guesses: seq<string>) returns (clouds: seq<seq<CharStatus>>)
    requires forall i :: 0 <= i < |guesses| ==> |guesses[i]| <= |word|
    ensures |clouds| == |guesses|
    ensures forall i :: 0 <= i < |guesses| ==> |clouds[i]| == |word|
    ensures (forall i :: 0 <= i < |guesses| ==> Consumed !in guesses[i]) ==> clouds == Clouds(word, guesses)
  {
    clouds := [];
    var i := 0;
    while i < |guesses|
      invariant 0 <= i <= |guesses|
      invariant |clouds| == i
      invariant forall j :: 0 <= j < i ==> |clouds[j]| == |word|
      invariant forall j :: 0 <= j < i && Consumed !in guesses[j] ==> clouds[j] == Cloud(word, guesses[j])
    {
      var cloud := BuildCloud(word, guesses[i]);
      clouds := clouds + [cloud];
      i := i + 1;
    }
  }

  // ---------------------------------------------------------------------
  // cloudsToRatings

  /** The letters of a rated row. */
  function Spell(row: seq<ApiChar>): string
  {
    seq(|row|, k requires 0 <= k < |row| => row[k].ch)
  }

  /** The verdicts of a rated row. */
  function Verdicts(row: seq<ApiChar>): seq<CharStatus>
  {
    seq(|row|, k requires 0 <= k < |row| => row[k].status)
  }

  /** `cloudsToRatings`: pair the k-th verdict of rating i with the k-th
      letter of guess i. Taking the pairs apart gives back the guess letters
      and the verdicts. */
  function Ratings(clouds: seq<seq<CharStatus>>, guesses: seq<string>): (r: seq<seq<ApiChar>>)
    requires |clouds| <= |guesses|
    requires forall i :: 0 <= i < |clouds| ==> |clouds[i]| <= |guesses[i]|
    ensures |r| == |clouds|
    ensures forall i :: 0 <= i < |r| ==>
              Spell(r[i]) == guesses[i][..|clouds[i]|] && Verdicts(r[i]) == clouds[i]
  {
    seq(|clouds|, i requires 0 <= i < |clouds| =>
      seq(|clouds[i]|, k requires 0 <= k < |clouds[i]| => ApiChar(guesses[i][k], clouds[i][k])))
  }

  // ---------------------------------------------------------------------
  // buildKeyboard

  /** One step of `buildKeyboard`: a letter's entry is overwritten only when
      it is missing or the new status has a strictly lower ordinal. */
  function Absorb(board: Keyboard, x: ApiChar): Keyboard
  {
    if x.ch !in board || Ordinal(board[x.ch]) > Ordinal(x.status) then board[x.ch := x.status] else board
  }

  /** The rated letters of all rows, row after row. */
  function Flatten(rows: seq<seq<ApiChar>>): seq<ApiChar>
  {
    if rows == [] then [] else Flatten(rows[..|rows| - 1]) + rows[|rows| - 1]
  }

  /** The board after absorbing `xs` in order into an empty board. */
  function Fold(xs: seq<ApiChar>): Keyboard
  {
    if xs == [] then map[] else Absorb(Fold(xs[..|xs| - 1]), xs[|xs| - 1])
  }

  function KeyboardOf(ratings: seq<seq<ApiChar>>): (r: Keyboard)
    ensures IsBestBoard(Flatten(ratings), r)
  {
    FoldIsBest(Flatten(ratings));
    Fold(Flatten(ratings))
  }

  /** `board` holds exactly the letters of `xs`, each with a status that
      letter received and no status it received ranks better. */
  ghost predicate IsBestBoard(xs: seq<ApiChar>, board: Keyboard)
  {
    && (forall c :: c in board ==> exists j :: 0 <= j < |xs| && xs[j] == ApiChar(c, board[c]))
    && (forall j :: 0 <= j < |xs| ==> xs[j].ch in board && Ordinal(board[xs[j].ch]) <= Ordinal(xs[j].status))
  }

  /** Folding keeps the best status seen for each letter. */
  lemma {:induction false} FoldIsBest(xs: seq<ApiChar>)
    ensures IsBestBoard(xs, Fold(xs))
  {
    if xs != [] {
      var ys, x := xs[..|xs| - 1], xs[|xs| - 1];
      FoldIsBest(ys);
      var before, after := Fold(ys), Fold(xs);
      assert after == Absorb(before, x);
      forall c | c in after
        ensures exists j :: 0 <= j < |xs| && xs[j] == ApiChar(c, after[c])
      {
        if c == x.ch && after[c] == x.status {
          assert xs[|xs| - 1] == ApiChar(c, after[c]);
        } else {
          assert c in before && after[c] == before[c];
          var j :| 0 <= j < |ys| && ys[j] == ApiChar(c, before[c]);
          assert xs[j] == ys[j];
        }
      }
      forall j | 0 <= j < |xs|
        ensures xs[j].ch in after && Ordinal(after[xs[j].ch]) <= Ordinal(xs[j].status)
      {
        if j < |ys| {
          assert xs[j] == ys[j];
        }
      }
    }
  }

  /** The best board of a sequence is unique: the characterization leaves
      no choice. */
  lemma BestBoardIsUnique(xs: seq<ApiChar>, b1: Keyboard, b2: Keyboard)
    requires IsBestBoard(xs, b1) && IsBestBoard(xs, b2)
    ensures b1 == b2
  {
    forall c | c in b1 ensures c in b2 && b2[c] == b1[c] {
      var j :| 0 <= j < |xs| && xs[j] == ApiChar(c, b1[c]);
      var k :| 0 <= k < |xs| && xs[k] == ApiChar(c, b2[c]);
      OrdinalOrder(b1[c], b2[c]);
    }
    forall c | c in b2 ensures c in b1 {
      var k :| 0 <= k < |xs| && xs[k] == ApiChar(c, b2[c]);
    }
  }

  /** `buildKeyboard`: nested loops over rows and letters, updating a
      mutable map. */
  method BuildKeyboard(ratings: seq<seq<ApiChar>>) returns (board: Keyboard)
    ensures board == KeyboardOf(ratings)
    ensures IsBestBoard(Flatten(ratings), board)
  {
    board := map[];
    var i := 0;
    while i < |ratings|
      invariant 0 <= i <= |ratings|
      invariant board == Fold(Flatten(ratings[..i]))
    {
      var row := ratings[i];
      var k := 0;
      assert Flatten(ratings[..i]) + row[..0] == Flatten(ratings[..i]);
      while k < |row|
        invariant 0 <= k <= |row|
        invariant board == Fold(Flatten(ratings[..i]) + row[..k])
      {
        var x := row[k];
        var override := x.ch !in board || Ordinal(board[x.ch]) > Ordinal(x.status);
        if override {
          board := board[x.ch := x.status];
        }
        assert (Flatten(ratings[..i]) + row[..k + 1])[..|Flatten(ratings[..i])| + k] == Flatten(ratings[..i]) + row[..k];
        k := k + 1;
      }
      assert ratings[..i + 1][..i] == ratings[..i];
      assert row[..|row|] == row;
      i := i + 1;
    }
    assert ratings[..|ratings|] == ratings;
    FoldIsBest(Flatten(ratings));
  }

  // ---------------------------------------------------------------------
  // whileTake

  /** `whileTake(keep)`: elements up to and including the first one that
      fails `keep`. */
  function TakeThrough<T>(xs: seq<T>, keep: T -> bool): (r: seq<T>)
    ensures |r| <= |xs| && r == xs[..|r|]
    ensures xs != [] ==> r != []
  {
    if xs == [] then []
    else if !keep(xs[0]) then [xs[0]]
    else [xs[0]] + TakeThrough(xs[1..], keep)
  }

  /** When element `n` is the first to fail, the result ends with it. */
  lemma {:induction false} TakeThroughStopsAfterFailure<T>(xs: seq<T>, keep: T -> bool, n: nat)
    requires n < |xs| && !keep(xs[n])
    requires forall j :: 0 <= j < n ==> keep(xs[j])
    ensures TakeThrough(xs, keep) == xs[..n + 1]
  {
    if n > 0 {
      TakeThroughStopsAfterFailure(xs[1..], keep, n - 1);
      assert xs[..n + 1] == [xs[0]] + xs[1..][..n];
    }
  }

  /** When no element fails, everything is kept. */
  lemma {:induction false} TakeThroughKeepsAll<T>(xs: seq<T>, keep: T -> bool)
    requires forall j :: 0 <= j < |xs| ==> keep(xs[j])
    ensures TakeThrough(xs, keep) == xs
  {
    if xs != [] {
      TakeThroughKeepsAll(xs[1..], keep);
      assert xs == [xs[0]] + xs[1..];
    }
  }

  /** `whileTake`: add each element, stop after the first that fails. */
  method WhileTake<T>(xs: seq<T>, keep: T -> bool) returns (list: seq<T>)
    ensures list == TakeThrough(xs, keep)
    ensures list == xs || (list != [] && !keep(list[|list| - 1]))
    ensures forall j :: 0 <= j < |list| - 1 ==> keep(list[j])
  {
    list := [];
    var i := 0;
    while i < |xs|
      invariant 0 <= i <= |xs|
      invariant list == xs[..i]
      invariant forall j :: 0 <= j < i ==> keep(xs[j])
    {
      list := list + [xs[i]];
      if !keep(xs[i]) {
        TakeThroughStopsAfterFailure(xs, keep, i);
        return;
      }
      i := i + 1;
    }
    assert xs[..|xs|] == xs;
    TakeThroughKeepsAll(xs, keep);
  }

  // ---------------------------------------------------------------------
  // The expectations of SessionsServiceTest

  lemma CloudExamplesShort()
    ensures Cloud("", "") == []
    ensures Cloud("a", "a") == [Correct]
    ensures Cloud("a", "b") == [Wrong]
    ensures Cloud("aa", "aa") == [Correct, Correct]
    ensures Cloud("ab", "ab") == [Correct, Correct]
    ensures Cloud("aa", "ab") == [Correct, Wrong]
  {
  }

  /** A repeated guessed letter earns nothing once the word's only copy is
      matched exactly. */
  lemma CloudExampleRepeat()
    ensures Cloud("ab", "aa") == [Correct, Wrong]
  {
    var w, g := "ab", "aa";
    assert multiset(w)['a'] == 1 by { assert w == ['a'] + ['b']; }
    assert Hits(w, g, 'a', 2) == 1;
    assert Mark(w, g, 1) == Wrong;
  }

  lemma HelloLetters()
    ensures multiset("hello") == multiset{'h', 'e', 'l', 'l', 'o'}
  {
    assert "hello" == ['h'] + ['e'] + ['l'] + ['l'] + ['o'];
  }

  lemma CloudExampleHello()
    ensures Cloud("hello", "olleh") == [Kinda, Kinda, Correct, Kinda, Kinda]
  {
    var w, g := "hello", "olleh";
    HelloLetters();
    assert Hits(w, g, 'o', 5) == 0 && Hits(w, g, 'l', 5) == 1;
    assert Hits(w, g, 'e', 5) == 0 && Hits(w, g, 'h', 5) == 0;
  }

  lemma TeetheLetters()
    ensures multiset("teethe") == multiset{'t', 'e', 'e', 't', 'h', 'e'}
  {
    assert "teethe" == ['t'] + ['e'] + ['e'] + ['t'] + ['h'] + ['e'];
  }

  /** Exact matches use up all three copies of `e`, so the other `e`s are
      Wrong even where they come first. */
  lemma CloudExampleTeethe()
    ensures Cloud("teethe", "eeeeee") == [Wrong, Correct, Correct, Wrong, Wrong, Correct]
  {
    var w, g := "teethe", "eeeeee";
    TeetheLetters();
    assert Hits(w, g, 'e', 6) == 3;
  }

  /** A second guessed `h` after the one that took the only `h` is Wrong. */
  lemma CloudExampleHealth()
    ensures Cloud("teethe", "health") == [Kinda, Correct, Wrong, Wrong, Kinda, Wrong]
  {
    var w, g := "teethe", "health";
    TeetheLetters();
    assert Hits(w, g, 'h', 6) == 0 && Hits(w, g, 'e', 6) == 1 && Hits(w, g, 't', 6) == 0;
    assert Hits(w, g, 'a', 6) == 0 && Hits(w, g, 'l', 6) == 0;
  }

  lemma CloseLetters()
    ensures multiset("close") == multiset{'c', 'l', 'o', 's', 'e'}
  {
    assert "close" == ['c'] + ['l'] + ['o'] + ['s'] + ['e'];
  }

  lemma CloudExampleCheer()
    ensures Cloud("close", "cheer") == [Correct, Wrong, Kinda, Wrong, Wrong]
  {
    var w, g := "close", "cheer";
    CloseLetters();
    assert Hits(w, g, 'h', 5) == 0 && Hits(w, g, 'e', 5) == 0 && Hits(w, g, 'r', 5) == 0;
    assert Misses(w, g, 'e', 3) == 1;
  }

  lemma CloudExampleCocks()
    ensures Cloud("close", "cocks") == [Correct, Kinda, Wrong, Wrong, Kinda]
  {
    var w, g := "close", "cocks";
    CloseLetters();
    assert Hits(w, g, 'o', 5) == 0 && Hits(w, g, 'c', 5) == 1;
    assert Hits(w, g, 'k', 5) == 0 && Hits(w, g, 's', 5) == 0;
  }

  lemma CloudExampleLeave()
    ensures Cloud("close", "leave") == [Kinda, Wrong, Wrong, Wrong, Correct]
  {
    var w, g := "close", "leave";
    CloseLetters();
    assert Hits(w, g, 'l', 5) == 0 && Hits(w, g, 'e', 5) == 1;
    assert Hits(w, g, 'a', 5) == 0 && Hits(w, g, 'v', 5) == 0;
  }

  lemma FoldStep(xs: seq<ApiChar>, k: nat)
    requires k < |xs|
    ensures Fold(xs[..k + 1]) == Absorb(Fold(xs[..k]), xs[k])
  {
    assert xs[..k + 1][..k] == xs[..k];
  }

  /** The two rated rows of the keyboard expectation. */
  function CheerRow(): seq<ApiChar>
  {
    [ApiChar('c', Correct), ApiChar('h', Wrong), ApiChar('e', Kinda), ApiChar('e', Wrong), ApiChar('r', Wrong)]
  }

  function LeaveRow(): seq<ApiChar>
  {
    [ApiChar('l', Kinda), ApiChar('e', Wrong), ApiChar('a', Wrong), ApiChar('v', Wrong), ApiChar('e', Correct)]
  }

  lemma RatingsExample()
    ensures Ratings(Clouds("close", ["cheer", "leave"]), ["cheer", "leave"]) == [CheerRow(), LeaveRow()]
  {
    CloudExampleCheer();
    CloudExampleLeave();
    var clouds := Clouds("close", ["cheer", "leave"]);
    assert clouds == [[Correct, Wrong, Kinda, Wrong, Wrong], [Kinda, Wrong, Wrong, Wrong, Correct]];
    var r := Ratings(clouds, ["cheer", "leave"]);
    assert r[0] == CheerRow() && r[1] == LeaveRow();
  }

  lemma FoldCheer()
    ensures Fold(CheerRow()) == map['c' := Correct, 'h' := Wrong, 'e' := Kinda, 'r' := Wrong]
  {
    var xs := CheerRow();
    assert xs[..0] == [];
    FoldStep(xs, 0);
    FoldStep(xs, 1);
    FoldStep(xs, 2);
    FoldStep(xs, 3);
    FoldStep(xs, 4);
    assert xs[..5] == xs;
  }

  lemma FoldExample()
    ensures Fold(CheerRow() + LeaveRow())
         == map['c' := Correct, 'h' := Wrong, 'e' := Correct, 'r' := Wrong, 'l' := Kinda, 'a' := Wrong, 'v' := Wrong]
  {
    var xs := CheerRow() + LeaveRow();
    assert xs[..5] == CheerRow();
    FoldCheer();
    FoldStep(xs, 5);
    FoldStep(xs, 6);
    FoldStep(xs, 7);
    FoldStep(xs, 8);
    FoldStep(xs, 9);
    assert xs[..10] == xs;
  }

  lemma FlattenPair(a: seq<ApiChar>, b: seq<ApiChar>)
    ensures Flatten([a, b]) == a + b
  {
    assert [a, b][..1] == [a];
    assert [a][..0] == [];
    assert Flatten([a]) == a;
  }

  /** Rating "cheer" and "leave" against "close" and folding both rows. */
  lemma KeyboardExample()
    ensures Clouds("", []) == [] && KeyboardOf([]) == map[]
    ensures KeyboardOf(Ratings(Clouds("close", ["cheer", "leave"]), ["cheer", "leave"]))
         == map['c' := Correct, 'h' := Wrong, 'e' := Correct, 'r' := Wrong, 'l' := Kinda, 'a' := Wrong, 'v' := Wrong]
  {
    RatingsExample();
    FoldExample();
    FlattenPair(CheerRow(), LeaveRow());
  }
}
