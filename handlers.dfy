/**
 * The request handlers (handlers.go), reduced to their decisions: which
 * reply code each request gets and which store call, if any, it makes.
 * Routing, JSON bodies and reply texts are not modelled; a request body
 * arrives already decoded, None standing for a body that failed to decode.
 */
module Handlers {
  import opened Wrappers
  import opened Text
  import opened Data
  import opened Das
  import opened GenMaps
  import opened SpeciesLoad

  const StatusOK: int := 200
  const StatusBadRequest: int := 400
  const StatusUnprocessableEntity: int := 422

  /** The reply after a store call: 200 when it returned no error, `failCode` when it did. */
  function StoreReply(outcome: Outcome, failCode: int): (code: int)
    requires failCode != StatusOK
    ensures code == StatusOK <==> outcome.Pass?
    ensures code != StatusOK ==> code == failCode
  {
    if outcome.Fail? then failCode else StatusOK
  }

  /**
   * The capacity AddCage asks for: the default when the `cap` parameter is
   * empty, otherwise the parameter when it is an integer of at least 1.
   */
  function CapacityParam(paramCap: string): (r: Option<int>)
    ensures r.Some? ==> 1 <= r.value
    ensures paramCap == [] ==> r == Some(CageCapacity)
    ensures paramCap != [] ==> (r.Some? <==> Atoi(paramCap).Some? && Atoi(paramCap).value >= 1)
    ensures paramCap != [] && r.Some? ==> r == Atoi(paramCap)
  {
    if |paramCap| != 0 then
      var cap := Atoi(paramCap);
      if cap.None? then None
      else if cap.value < 1 then None
      else cap
    else Some(CageCapacity)
  }

  /** The cage kind AddCage creates for its {diet} path segment: H and C only. */
  function CageKind(diet: string): (r: Option<string>)
    ensures r.Some? <==> IsDietCode(diet)
    ensures r.Some? ==> r.value == diet
  {
    match diet
    case "H" => Some(HerbivoreCode)
    case "C" => Some(CarnivoreCode)
    case _ => None
  }

  /** A {cageid} path segment: non-empty and an integer. The emptiness test adds nothing to Atoi's. */
  function CageIdParam(param: string): (r: Option<int>)
    ensures r == Atoi(param)
  {
    if |param| == 0 then None else Atoi(param)
  }

  /** GetCages filters on the `status` parameter only when it is non-empty and a valid status. */
  function CageFilter(status: string): (r: Option<string>)
    ensures r.Some? <==> ValidStatus(status)
    ensures r.Some? ==> r.value == status
  {
    if |status| != 0 && ValidStatus(status) then Some(status) else None
  }

  class AppHandlers {
    const dap: CageStore
    const speciesMap: GenMap<string, string>

    constructor (dap: CageStore, speciesMap: GenMap<string, string>)
      ensures this.dap == dap && this.speciesMap == speciesMap
    {
      this.dap := dap;
      this.speciesMap := speciesMap;
    }

    /** Whether a species name is in the reference map; the map is only read. */
    method CheckSpecies(speciesName: string) returns (ok: bool)
      ensures ok <==> speciesName in speciesMap.m
    {
      var value, found := speciesMap.Load(speciesName);
      ok := found;
    }

    /** Store lower(name) -> upper(diet) when the upper-cased diet is a diet code. */
    method NewSpecies(name: string, diet: string) returns (ok: bool)
      modifies speciesMap
      ensures ok <==> IsDietCode(ToUpper(diet))
      ensures speciesMap.m == if ok then old(speciesMap.m)[ToLower(name) := ToUpper(diet)] else old(speciesMap.m)
      ensures ok ==> ToLower(name) in speciesMap.m
    {
      var code := ToUpper(diet);
      if code != HerbivoreCode && code != CarnivoreCode {
        return false;
      }
      speciesMap.Store(ToLower(name), code);
      return true;
    }

    /**
     * POST /dino/add: a known species is admitted to a free or new cage of
     * its diet. The ghost `cage` names the cage the store chose.
     */
    method AddDinosaur(payload: Option<Dinosaur>) returns (code: int, ghost cage: int)
      requires dap.Valid()
      modifies dap
      ensures dap.Valid()
      ensures code == StatusOK <==> payload.Some? && ToLower(payload.value.species) in speciesMap.m
      ensures code != StatusOK ==> code == StatusBadRequest && unchanged(dap)
      ensures code == StatusOK ==>
        var d := payload.value;
        && cage in dap.cages && dap.cages[cage].kind == d.diet
        && dap.dinosaurs == old(dap.dinosaurs) + [DinosaurRow(d, old(dap.nextDinosaurId), cage)]
        && dap.nextDinosaurId == old(dap.nextDinosaurId) + 1
        && (FreeCageIds(old(dap.cages), d.diet) != {} ==>
              cage in FreeCageIds(old(dap.cages), d.diet) && dap.nextCageId == old(dap.nextCageId)
              && dap.cages == old(dap.cages)[cage := Place(old(dap.cages)[cage])])
        && (FreeCageIds(old(dap.cages), d.diet) == {} ==>
              cage == old(dap.nextCageId) && cage !in old(dap.cages) && dap.nextCageId == cage + 1
              && dap.cages == old(dap.cages)[cage := Place(NewCageRow(cage, CageCapacity, d.diet))])
      ensures old(dap.DownOnlyWhenEmpty()) ==> dap.DownOnlyWhenEmpty()
      ensures old(dap.CountsMatchRecords()) ==> dap.CountsMatchRecords()
    {
      cage := 0;
      if payload.None? {
        code := StatusBadRequest;
        return;
      }
      var dino := payload.value;
      var known := CheckSpecies(ToLower(dino.species));
      if !known {
        code := StatusBadRequest;
        return;
      }
      var outcome;
      outcome, cage := dap.AddDinosaur(dino);
      code := StoreReply(outcome, StatusUnprocessableEntity);
    }

    /** POST /cage/{diet}/add?cap=N: a new ACTIVE, empty cage. */
    method AddCage(diet: string, paramCap: string) returns (code: int, id: int)
      requires dap.Valid()
      modifies dap
      ensures dap.Valid()
      ensures code == StatusOK <==> CapacityParam(paramCap).Some? && CageKind(diet).Some?
      ensures code != StatusOK ==> code == StatusBadRequest && unchanged(dap)
      ensures code == StatusOK ==>
        id == old(dap.nextCageId) && id !in old(dap.cages)
        && dap.cages == old(dap.cages)[id := NewCageRow(id, CapacityParam(paramCap).value, diet)]
        && dap.nextCageId == id + 1
      ensures dap.dinosaurs == old(dap.dinosaurs) && dap.nextDinosaurId == old(dap.nextDinosaurId)
      ensures old(dap.DownOnlyWhenEmpty()) ==> dap.DownOnlyWhenEmpty()
      ensures old(dap.CountsMatchRecords()) ==> dap.CountsMatchRecords()
    {
      var cap := CapacityParam(paramCap);
      if cap.None? {
        return StatusBadRequest, 0;
      }
      var kind := CageKind(diet);
      if kind.None? {
        return StatusBadRequest, 0;
      }
      var outcome;
      id, outcome := dap.NewCage(cap.value, kind.value);
      code := StoreReply(outcome, StatusUnprocessableEntity);
    }

    /** GET /cages?status=S: all cages, or those of status S when S is valid. */
    method GetCages(statusParam: string) returns (code: int, cages: seq<Cage>)
      requires dap.Valid()
      ensures code == StatusOK
      ensures forall c :: c in cages ==>
        c.id in dap.cages && dap.cages[c.id] == c && Selected(c, CageFilter(statusParam))
      ensures forall id :: id in dap.cages && Selected(dap.cages[id], CageFilter(statusParam)) ==>
        dap.cages[id] in cages
      ensures forall i, j :: 0 <= i < j < |cages| ==> cages[i].id != cages[j].id
    {
      cages := dap.GetCages(CageFilter(statusParam));
      code := StatusOK;
    }

    /** POST /species/add: the entry is offered to NewSpecies, whose verdict is ignored. */
    method AddSpecies(payload: Option<Species>) returns (code: int)
      modifies speciesMap
      ensures code == StatusOK <==> payload.Some?
      ensures code != StatusOK ==> code == StatusUnprocessableEntity
      ensures speciesMap.m ==
        if payload.Some? && IsDietCode(ToUpper(payload.value.diet))
        then old(speciesMap.m)[ToLower(payload.value.name) := ToUpper(payload.value.diet)]
        else old(speciesMap.m)
    {
      if payload.None? {
        return StatusUnprocessableEntity;
      }
      var ok := NewSpecies(payload.value.name, payload.value.diet);
      code := StatusOK;
    }

    /** GET /species/list: every stored name and diet, each name once. */
    method ListSpecies() returns (code: int, species: seq<Species>)
      ensures code == StatusOK
      ensures forall s :: s in species <==> s.name in speciesMap.m && speciesMap.m[s.name] == s.diet
      ensures forall i, j :: 0 <= i < j < |species| ==> species[i].name != species[j].name
    {
      var visited := speciesMap.Range((name: string, diet: string) => true);
      species := [];
      for i := 0 to |visited|
        invariant |species| == i
        invariant forall j :: 0 <= j < i ==> species[j] == Species(visited[j].0, visited[j].1)
      {
        species := species + [Species(visited[i].0, visited[i].1)];
      }
      forall name | name in speciesMap.m
        ensures Species(name, speciesMap.m[name]) in species
      {
        assert name in KeysOf(visited);
        var i :| 0 <= i < |visited| && visited[i].0 == name;
        assert species[i] == Species(name, speciesMap.m[name]);
      }
      code := StatusOK;
    }

    /** POST /cage/{cageid}/status/{status}: a valid status for an integer cage id. */
    method SetCageStatus(paramCageId: string, status: string) returns (code: int)
      requires dap.Valid()
      modifies dap
      ensures dap.Valid()
      ensures code == StatusBadRequest <==> !ValidStatus(status) || Atoi(paramCageId).None?
      ensures code == StatusBadRequest ==> unchanged(dap)
      ensures code != StatusBadRequest ==>
        var id := Atoi(paramCageId).value;
        && (code == StatusOK <==> id in old(dap.cages) && StatusUpdateMatches(old(dap.cages)[id], status))
        && (code == StatusOK ==> dap.cages == old(dap.cages)[id := old(dap.cages)[id].(status := status)])
        && (code != StatusOK ==> code == StatusUnprocessableEntity && dap.cages == old(dap.cages))
      ensures dap.dinosaurs == old(dap.dinosaurs)
      ensures dap.nextCageId == old(dap.nextCageId) && dap.nextDinosaurId == old(dap.nextDinosaurId)
      ensures old(dap.DownOnlyWhenEmpty()) ==> dap.DownOnlyWhenEmpty()
      ensures old(dap.CountsMatchRecords()) ==> dap.CountsMatchRecords()
    {
      if |status| == 0 || !ValidStatus(status) {
        return StatusBadRequest;
      }
      var cageId := CageIdParam(paramCageId);
      if cageId.None? {
        return StatusBadRequest;
      }
      var outcome := dap.SetCageStatus(cageId.value, status);
      code := StoreReply(outcome, StatusUnprocessableEntity);
    }

    /** POST /cage/{cageid}/add_dino: no species check; a store error is a bad request. */
    method AddDinoToCage(paramCageId: string, payload: Option<Dinosaur>) returns (code: int)
      requires dap.Valid()
      modifies dap
      ensures dap.Valid()
      ensures code == StatusOK || code == StatusBadRequest
      ensures code == StatusOK <==>
        Atoi(paramCageId).Some? && payload.Some?
        && Atoi(paramCageId).value in old(dap.cages)
        && Admits(old(dap.cages)[Atoi(paramCageId).value], payload.value.diet)
      ensures code == StatusOK ==>
        var id := Atoi(paramCageId).value;
        dap.cages == old(dap.cages)[id := Place(old(dap.cages)[id])]
        && dap.dinosaurs == old(dap.dinosaurs) + [DinosaurRow(payload.value, old(dap.nextDinosaurId), id)]
        && dap.nextDinosaurId == old(dap.nextDinosaurId) + 1
      ensures code != StatusOK ==>
        dap.cages == old(dap.cages) && dap.dinosaurs == old(dap.dinosaurs)
        && dap.nextDinosaurId == old(dap.nextDinosaurId)
      ensures dap.nextCageId == old(dap.nextCageId)
      ensures old(dap.CountsMatchRecords()) ==> dap.CountsMatchRecords()
    {
      var cageId := CageIdParam(paramCageId);
      if cageId.None? {
        return StatusBadRequest;
      }
      if payload.None? {
        return StatusBadRequest;
      }
      var outcome := dap.PlaceDinosaurInCage(cageId.value, payload.value);
      code := StoreReply(outcome, StatusBadRequest);
    }
  }
}
