/**
 * Loading the species reference list (species.go): parsed entries are
 * stored in a GenMap under their lower-cased names, skipping those whose
 * diet is not a diet code. Reading the file and decoding its JSON are not
 * modelled; the method receives the decoded entries.
 */
module SpeciesLoad {
  import opened Text
  import opened Data
  import opened GenMaps

  datatype Species = Species(name: string, diet: string)

  /** ReadSpecies keeps an entry iff its upper-cased diet is a diet code. */
  predicate Accepted(s: Species)
  {
    IsDietCode(ToUpper(s.diet))
  }

  /** The map left after storing the accepted entries in order: lower-cased name to diet as written. */
  function SpeciesTable(entries: seq<Species>): map<string, string>
  {
    if entries == [] then map[]
    else
      var table := SpeciesTable(entries[..|entries| - 1]);
      var s := entries[|entries| - 1];
      if Accepted(s) then table[ToLower(s.name) := s.diet] else table
  }

  /** The accepted diets are exactly H, h, C and c. */
  lemma AcceptedDiets(s: Species)
    ensures Accepted(s) <==> s.diet in {"H", "h", "C", "c"}
  {
    ToUpperSingleLetter(s.diet, 'H');
    ToUpperSingleLetter(s.diet, 'C');
  }

  /** The keys are exactly the lower-cased names of the accepted entries. */
  lemma {:induction false} SpeciesTableKeys(entries: seq<Species>)
    ensures SpeciesTable(entries).Keys == set s | s in entries && Accepted(s) :: ToLower(s.name)
  {
    if entries != [] {
      var init, last := entries[..|entries| - 1], entries[|entries| - 1];
      SpeciesTableKeys(init);
      assert entries == init + [last];
      var keys := set s | s in entries && Accepted(s) :: ToLower(s.name);
      var initKeys := set s | s in init && Accepted(s) :: ToLower(s.name);
      assert keys == initKeys + (if Accepted(last) then {ToLower(last.name)} else {}) by {
        forall k | k in keys ensures k in initKeys + (if Accepted(last) then {ToLower(last.name)} else {}) {
          var s :| s in entries && Accepted(s) && ToLower(s.name) == k;
          if s != last { assert s in init; }
        }
      }
    }
  }

  /** Of several accepted entries with the same lower-cased name, the last one's diet is stored. */
  lemma {:induction false} SpeciesTableLastWins(entries: seq<Species>, i: int)
    requires 0 <= i < |entries| && Accepted(entries[i])
    requires forall j :: i < j < |entries| && Accepted(entries[j]) ==>
               ToLower(entries[j].name) != ToLower(entries[i].name)
    ensures ToLower(entries[i].name) in SpeciesTable(entries)
    ensures SpeciesTable(entries)[ToLower(entries[i].name)] == entries[i].diet
  {
    var init := entries[..|entries| - 1];
    if i < |entries| - 1 {
      forall j | i < j < |init| && Accepted(init[j])
        ensures ToLower(init[j].name) != ToLower(init[i].name)
      {
        assert init[j] == entries[j];
      }
      SpeciesTableLastWins(init, i);
    }
  }

  /** Every stored key is lower-case and every stored value upper-cases to a diet code. */
  lemma {:induction false} SpeciesTableValues(entries: seq<Species>)
    ensures forall name :: name in SpeciesTable(entries) ==>
              ToLower(name) == name && IsDietCode(ToUpper(SpeciesTable(entries)[name]))
  {
    if entries != [] {
      var last := entries[|entries| - 1];
      SpeciesTableValues(entries[..|entries| - 1]);
      ToLowerIdempotent(last.name);
    }
  }

  /** The diet is stored as written, not upper-cased. */
  lemma DietStoredAsWritten()
    ensures SpeciesTable([Species("Stegosaurus", "h")]) == map["stegosaurus" := "h"]
  {
    var entries := [Species("Stegosaurus", "h")];
    assert entries[..0] == [];
    assert ToUpper("h") == "H";
    assert ToLower("Stegosaurus") == "stegosaurus";
  }

  /** The loop of ReadSpecies over already decoded entries. */
  method ReadSpecies(entries: seq<Species>) returns (speciesMap: GenMap<string, string>)
    ensures fresh(speciesMap) && speciesMap.zero == ""
    ensures speciesMap.m == SpeciesTable(entries)
  {
    speciesMap := new GenMap("");
    for i := 0 to |entries|
      invariant fresh(speciesMap) && speciesMap.zero == ""
      invariant speciesMap.m == SpeciesTable(entries[..i])
    {
      assert entries[..i + 1][..i] == entries[..i];
      var s := entries[i];
      var diet := ToUpper(s.diet);
      if diet != HerbivoreCode && diet != CarnivoreCode {
        // invalid code: skip the entry
        continue;
      }
      speciesMap.Store(ToLower(s.name), s.diet);
    }
    assert entries[..|entries|] == entries;
  }
}
