/** The word catalog of services/WordsService.kt: a table of word texts,
    unique by text, each flagged as a possible solution or only an allowed
    guess. The table becomes a map from text to flag. */
module Words {
  import opened Wrappers
  import opened Text
  import opened Entities

  type Catalog = map<string, bool>

  /** The catalog after `create(word, solution)`, with the word returned.
      The text is lower-cased before it is looked up; a word already present
      with the other flag is a conflict (`IllegalStateException("dup: …")`
      in the source). */
  function Insert(catalog: Catalog, word: string, solution: bool): (r: Result<(ApiWord, Catalog), string>)
    ensures var txt := Lower(word);
      && (r.Failure? <==> txt in catalog && catalog[txt] != solution)
      && (r.Failure? ==> r.error == "dup: " + txt)
      && (r.Success? ==> r.value.0 == ApiWord(txt, solution))
      && (r.Success? ==> r.value.1 == catalog[txt := solution])
      && (r.Success? && txt in catalog ==> r.value.1 == catalog)
      && (r.Success? && txt !in catalog ==> |r.value.1| == |catalog| + 1)
  {
    var txt := Lower(word);
    if txt in catalog then
      if catalog[txt] != solution then Failure("dup: " + txt)
      else Success((ApiWord(txt, catalog[txt]), catalog))
    else
      Success((ApiWord(txt, solution), catalog[txt := solution]))
  }

  /** Inserting twice is inserting once, and a word's case does not matter. */
  lemma InsertIdempotent(catalog: Catalog, word: string, solution: bool)
    requires Insert(catalog, word, solution).Success?
    ensures var c := Insert(catalog, word, solution).value.1;
      && Insert(c, word, solution) == Success((ApiWord(Lower(word), solution), c))
      && Insert(c, Lower(word), solution) == Insert(c, word, solution)
  {
    LowerFacts(word);
  }

  /** Once a text is in the catalog with one flag, creating it with the
      other flag fails whatever the case of the letters. */
  lemma InsertConflict(catalog: Catalog, word: string, solution: bool)
    requires Insert(catalog, word, solution).Success?
    ensures Insert(Insert(catalog, word, solution).value.1, word, !solution).Failure?
    ensures Insert(Insert(catalog, word, solution).value.1, Lower(word), !solution).Failure?
  {
    LowerFacts(word);
  }

  /** Every stored text is lower-case when every creation went through
      `Insert`: the texts in the catalog are closed under lower-casing. */
  ghost predicate LowerCaseTexts(catalog: Catalog)
  {
    forall txt :: txt in catalog ==> Lower(txt) == txt
  }

  lemma InsertKeepsLowerCase(catalog: Catalog, word: string, solution: bool)
    requires LowerCaseTexts(catalog) && Insert(catalog, word, solution).Success?
    ensures LowerCaseTexts(Insert(catalog, word, solution).value.1)
  {
    LowerFacts(word);
  }

  /** `random(solution)`'s filter: any word when the flag is null, else the
      words with that flag. */
  predicate Matches(flag: Option<bool>, solution: bool)
  {
    flag.None? || flag.value == solution
  }

  class WordsService {
    var catalog: Catalog

    ghost predicate Valid()
      reads this
    {
      LowerCaseTexts(catalog)
    }

    constructor()
      ensures Valid() && catalog == map[]
    {
      catalog := map[];
    }

    /** `create`. */
    method Create(word: string, solution: bool) returns (r: Result<ApiWord, string>)
      requires Valid()
      modifies this
      ensures Valid()
      ensures var ins := Insert(old(catalog), word, solution);
        && (ins.Failure? ==> r == Failure(ins.error) && catalog == old(catalog))
        && (ins.Success? ==> r == Success(ins.value.0) && catalog == ins.value.1)
    {
      var txt := Lower(word);
      if txt in catalog {
        if catalog[txt] != solution {
          return Failure("dup: " + txt);
        }
        return Success(ApiWord(txt, catalog[txt]));
      }
      InsertKeepsLowerCase(catalog, word, solution);
      catalog := catalog[txt := solution];
      r := Success(ApiWord(txt, solution));
    }

    /** `random(solution)`: some catalog word passing the filter; `None`
        when no word does (`first()` throws there). Which word is drawn is
        left open. */
    method Random(flag: Option<bool>) returns (r: Option<ApiWord>)
      ensures r.None? <==> forall txt :: txt in catalog ==> !Matches(flag, catalog[txt])
      ensures r.Some? ==> r.value.txt in catalog && r.value.solution == catalog[r.value.txt]
      ensures r.Some? ==> Matches(flag, r.value.solution)
    {
      if txt :| txt in catalog && Matches(flag, catalog[txt]) {
        r := Some(ApiWord(txt, catalog[txt]));
      } else {
        r := None;
      }
    }
  }
}
