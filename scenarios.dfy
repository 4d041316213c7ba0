/**
 * Call sequences against the store and the handlers, starting from an
 * empty database. Each asserts what the contracts alone determine about
 * the state the calls leave.
 */
module Scenarios {
  import opened Wrappers
  import opened Text
  import opened Data
  import opened Das
  import opened GenMaps
  import opened Handlers

  /** A cage of capacity 2 takes two herbivores and refuses a third. */
  method CapacityIsEnforced()
  {
    var store := new CageStore();
    var id, created := store.NewCage(2, HerbivoreCode);
    assert created == Pass && id == 1;
    var leaf := Dinosaur(0, "Brachiosaurus", "Leaf", HerbivoreCode, 0);
    var grass := Dinosaur(0, "Brachiosaurus", "Grass", HerbivoreCode, 0);
    var fern := Dinosaur(0, "Brachiosaurus", "Fern", HerbivoreCode, 0);
    var first := store.PlaceDinosaurInCage(id, leaf);
    var second := store.PlaceDinosaurInCage(id, grass);
    var third := store.PlaceDinosaurInCage(id, fern);
    assert first == Pass && second == Pass && third.Fail?;
    assert store.cages[id].count == 2 && |store.dinosaurs| == 2;
  }

  /** A carnivore is refused by a herbivore cage. */
  method DietIsEnforced()
  {
    var store := new CageStore();
    var id, created := store.NewCage(5, HerbivoreCode);
    var rex := Dinosaur(0, "Tyrannosaurus", "Rex", CarnivoreCode, 0);
    var placed := store.PlaceDinosaurInCage(id, rex);
    assert placed.Fail? && store.cages[id].count == 0 && store.dinosaurs == [];
  }

  /** An occupied cage cannot be powered down. */
  method PowerDownNeedsEmptyCage()
  {
    var store := new CageStore();
    var full, created := store.NewCage(2, HerbivoreCode);
    var leaf := Dinosaur(0, "Brachiosaurus", "Leaf", HerbivoreCode, 0);
    var placed := store.PlaceDinosaurInCage(full, leaf);
    var refused := store.SetCageStatus(full, StatusDown);
    assert refused == Fail("cage status unchanged") && store.cages[full].status == StatusActive;
  }

  /** An empty cage can be powered down and up again; an unknown cage cannot change status. */
  method PowerDownEmptyCage()
  {
    var store := new CageStore();
    var empty, created := store.NewCage(2, HerbivoreCode);
    var down := store.SetCageStatus(empty, StatusDown);
    assert down == Pass && store.cages[empty].status == StatusDown;
    var up := store.SetCageStatus(empty, StatusActive);
    assert up == Pass && store.cages[empty].status == StatusActive;
    var missing := store.SetCageStatus(7, StatusActive);
    assert missing.Fail?;
  }

  /**
   * CheckCage does not look at the status, so a dinosaur placed in a cage
   * that is DOWN is accepted, and the cage is then DOWN and occupied.
   */
  method DownCageStillAdmits()
  {
    var store := new CageStore();
    var id, created := store.NewCage(2, HerbivoreCode);
    var down := store.SetCageStatus(id, StatusDown);
    var leaf := Dinosaur(0, "Brachiosaurus", "Leaf", HerbivoreCode, 0);
    var placed := store.PlaceDinosaurInCage(id, leaf);
    assert placed == Pass;
    assert store.cages[id].status == StatusDown && store.cages[id].count == 1;
    assert !store.DownOnlyWhenEmpty();
  }

  /** With no cage of the diet, AddDinosaur creates one of the default capacity and fills one slot. */
  method FindOrCreate()
  {
    var store := new CageStore();
    var rex := Dinosaur(0, "Tyrannosaurus", "Rex", CarnivoreCode, 0);
    var added;
    ghost var cage;
    added, cage := store.AddDinosaur(rex);
    assert FreeCageIds(map[], CarnivoreCode) == {};
    assert cage == 1 && store.cages[1] == Cage(1, StatusActive, CageCapacity, 1, CarnivoreCode);
    assert FreeCageIds(store.cages, CarnivoreCode) == {1};
    var blue := Dinosaur(0, "Velociraptor", "Blue", CarnivoreCode, 0);
    added, cage := store.AddDinosaur(blue);
    assert cage == 1 && store.cages.Keys == {1} && store.cages[1].count == 2;
  }

  /** A species added through the handlers is then known, and its dinosaurs are admitted. */
  method SpeciesGate()
  {
    var store := new CageStore();
    var species := new GenMap("");
    var app := new AppHandlers(store, species);
    var stored := app.NewSpecies("Tyrannosaurus", "c");
    assert stored;
    assert ToLower("Tyrannosaurus") == "tyrannosaurus";
    var known := app.CheckSpecies("tyrannosaurus");
    assert known;
    var barnie := Dinosaur(0, "Tyrannosaurus", "Barnie", CarnivoreCode, 1);
    ghost var cage;
    var code;
    code, cage := app.AddDinosaur(Some(barnie));
    assert code == StatusOK;
    var mystery := Dinosaur(0, "Dodo", "Ziggy", HerbivoreCode, 1);
    code, cage := app.AddDinosaur(Some(mystery));
    assert code == StatusBadRequest;
  }
}
