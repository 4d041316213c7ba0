/**
 * The cage and dinosaur store of package das (das/das.go). The two SQL
 * tables are held in memory: `cages` maps each id to its row and
 * `dinosaurs` lists the dinosaur rows in insertion order. Each method does
 * what its SQL statement does to those tables, in sequential execution and
 * with a database that never fails.
 */
module Das {
  import opened Wrappers
  import opened Text
  import opened Data

  /** The WHERE clause of CheckCage's increment: right diet and a free slot. Status is not consulted. */
  predicate Admits(c: Cage, diet: string)
  {
    c.kind == diet && c.count < c.capacity
  }

  /** The WHERE clause of GetFreeCage's query: a free slot, ACTIVE and the right diet. */
  predicate IsFree(c: Cage, diet: string)
  {
    c.count < c.capacity && c.status == StatusActive && c.kind == diet
  }

  /** The ids GetFreeCage's query returns. */
  function FreeCageIds(cages: map<int, Cage>, diet: string): set<int>
  {
    set id | id in cages && IsFree(cages[id], diet)
  }

  /** The WHERE clause of SetCageStatus: powering a cage down also needs it empty. */
  predicate StatusUpdateMatches(c: Cage, status: string)
  {
    status == StatusDown ==> c.count == 0
  }

  /** The rows GetCages returns: all of them, or those with the given status. */
  predicate Selected(c: Cage, filter: Option<string>)
  {
    filter.None? || c.status == filter.value
  }

  /** The row a new cage gets. */
  function NewCageRow(id: int, capacity: int, kind: string): Cage
  {
    Cage(id, StatusActive, capacity, 0, kind)
  }

  /** `count = count + 1` on one row. */
  function Place(c: Cage): Cage
  {
    c.(count := c.count + 1)
  }

  /** The row the INSERT of a dinosaur writes: species and name lower-cased, diet as given. */
  function DinosaurRow(d: Dinosaur, id: int, cage: int): Dinosaur
  {
    Dinosaur(id, ToLower(d.species), ToLower(d.name), d.diet, cage)
  }

  /** The dinosaur rows whose cage column is `cage`, in insertion order. */
  function DinosaursIn(ds: seq<Dinosaur>, cage: int): (r: seq<Dinosaur>)
    ensures |r| <= |ds|
    ensures forall d :: d in r <==> d in ds && d.cage == cage
  {
    if ds == [] then []
    else (if ds[0].cage == cage then [ds[0]] else []) + DinosaursIn(ds[1..], cage)
  }

  /** Inserting one dinosaur adds it to its own cage's rows and to no other cage's. */
  lemma {:induction false} DinosaursInAppend(ds: seq<Dinosaur>, d: Dinosaur, cage: int)
    ensures DinosaursIn(ds + [d], cage) == DinosaursIn(ds, cage) + (if d.cage == cage then [d] else [])
  {
    if ds == [] {
      assert ds + [d] == [d];
    } else {
      assert (ds + [d])[0] == ds[0];
      assert (ds + [d])[1..] == ds[1..] + [d];
      DinosaursInAppend(ds[1..], d, cage);
    }
  }

  /** A cage no row refers to has no dinosaurs. */
  lemma DinosaursInNone(ds: seq<Dinosaur>, cage: int)
    requires forall i :: 0 <= i < |ds| ==> ds[i].cage != cage
    ensures DinosaursIn(ds, cage) == []
  {
    var r := DinosaursIn(ds, cage);
  }

  /**
   * Admitting one dinosaur keeps counts and rows in step: if every count
   * matched the rows before, and the row's cage now counts one more
   * dinosaur than the old rows name while every other cage keeps its
   * count, then every count matches the rows with the new row appended.
   */
  lemma CountsMatchAfterAdmit(cages: map<int, Cage>, ds: seq<Dinosaur>, cages': map<int, Cage>, row: Dinosaur)
    requires forall id :: id in cages ==> cages[id].count == |DinosaursIn(ds, id)|
    requires row.cage in cages' && cages'[row.cage].count == |DinosaursIn(ds, row.cage)| + 1
    requires forall id :: id in cages' && id != row.cage ==> id in cages && cages'[id].count == cages[id].count
    ensures forall id :: id in cages' ==> cages'[id].count == |DinosaursIn(ds + [row], id)|
  {
    forall id | id in cages'
      ensures cages'[id].count == |DinosaursIn(ds + [row], id)|
    {
      DinosaursInAppend(ds, row, id);
    }
  }

  class CageStore {
    var cages: map<int, Cage>
    var dinosaurs: seq<Dinosaur>
    /** The next value of the cage id sequence (serial ids start at 1). */
    var nextCageId: int
    /** The next value of the dinosaur id sequence. */
    var nextDinosaurId: int

    /** Ids are the row keys and below the sequences; every dinosaur's cage exists. */
    ghost predicate WellFormed()
      reads this
    {
      && 1 <= nextCageId && 1 <= nextDinosaurId
      && (forall id :: id in cages ==>
            cages[id].id == id && 1 <= id < nextCageId && 1 <= cages[id].capacity && 0 <= cages[id].count)
      && (forall i :: 0 <= i < |dinosaurs| ==>
            dinosaurs[i].cage in cages && 1 <= dinosaurs[i].id < nextDinosaurId)
    }

    /** No cage holds more than its capacity. */
    ghost predicate WithinCapacity()
      reads this
    {
      forall id :: id in cages ==> cages[id].count <= cages[id].capacity
    }

    ghost predicate Valid()
      reads this
    {
      WellFormed() && WithinCapacity()
    }

    /** A cage is DOWN only while it is empty. */
    ghost predicate DownOnlyWhenEmpty()
      reads this
    {
      forall id :: id in cages && cages[id].status == StatusDown ==> cages[id].count == 0
    }

    /** Each cage's count is the number of dinosaur rows that name it. */
    ghost predicate CountsMatchRecords()
      reads this
    {
      forall id :: id in cages ==> cages[id].count == |DinosaursIn(dinosaurs, id)|
    }

    /** An empty database. */
    constructor ()
      ensures Valid() && DownOnlyWhenEmpty() && CountsMatchRecords()
      ensures cages == map[] && dinosaurs == [] && nextCageId == 1 && nextDinosaurId == 1
    {
      cages, dinosaurs := map[], [];
      nextCageId, nextDinosaurId := 1, 1;
    }

    /** INSERT of a cage row with status ACTIVE and count 0, returning its fresh id. */
    method NewCage(cap: int, kind: string) returns (id: int, outcome: Outcome)
      requires Valid()
      modifies this
      ensures Valid()
      ensures outcome.Fail? <==> cap < 1
      ensures outcome.Fail? ==>
        id == -1 && outcome.msg == "cage capacity < 1 not permitted"
        && cages == old(cages) && nextCageId == old(nextCageId)
      ensures outcome.Pass? ==>
        id == old(nextCageId) && id !in old(cages) && nextCageId == id + 1
        && cages == old(cages)[id := NewCageRow(id, cap, kind)]
      ensures dinosaurs == old(dinosaurs) && nextDinosaurId == old(nextDinosaurId)
      ensures old(DownOnlyWhenEmpty()) ==> DownOnlyWhenEmpty()
      ensures old(CountsMatchRecords()) ==> CountsMatchRecords()
    {
      if cap < 1 {
        return -1, Fail("cage capacity < 1 not permitted");
      }
      id := nextCageId;
      DinosaursInNone(dinosaurs, id);
      cages := cages[id := NewCageRow(id, cap, kind)];
      nextCageId := nextCageId + 1;
      outcome := Pass;
    }

    /** `UPDATE cages SET count=count+1 WHERE id AND kind AND count < capacity`, succeeding iff one row matched. */
    method CheckCage(cageId: int, diet: string) returns (outcome: Outcome)
      requires Valid()
      modifies this
      ensures Valid()
      ensures outcome.Pass? <==> cageId in old(cages) && Admits(old(cages)[cageId], diet)
      ensures outcome.Pass? ==> cages == old(cages)[cageId := Place(old(cages)[cageId])]
      ensures outcome.Fail? ==>
        cages == old(cages) && outcome.msg == "unable to place dino in cage " + DecimalString(cageId)
      ensures dinosaurs == old(dinosaurs)
      ensures nextCageId == old(nextCageId) && nextDinosaurId == old(nextDinosaurId)
    {
      var num := 0;
      if cageId in cages && Admits(cages[cageId], diet) {
        cages := cages[cageId := Place(cages[cageId])];
        num := 1;
      }
      if num == 1 {
        return Pass;
      }
      return Fail("unable to place dino in cage " + DecimalString(cageId));
    }

    /** `UPDATE cages SET count = count + 1 WHERE id = $1`, with no capacity guard. */
    method PlaceInCage(id: int)
      requires WellFormed()
      modifies this
      ensures WellFormed()
      ensures cages == if id in old(cages) then old(cages)[id := Place(old(cages)[id])] else old(cages)
      ensures dinosaurs == old(dinosaurs)
      ensures nextCageId == old(nextCageId) && nextDinosaurId == old(nextDinosaurId)
    {
      if id in cages {
        cages := cages[id := Place(cages[id])];
      }
    }

    /**
     * The row loop of GetFreeCage's query: it counts the free cages of the
     * diet and keeps the id of the last row scanned (rows come in no
     * particular order), or 0 when there is none.
     */
    method SelectFreeCage(diet: string) returns (id: int, count: nat)
      ensures count == |FreeCageIds(cages, diet)|
      ensures count > 0 ==> id in FreeCageIds(cages, diet)
      ensures count == 0 ==> id == 0
    {
      var rows := FreeCageIds(cages, diet);
      id, count := 0, 0;
      while rows != {}
        invariant rows <= FreeCageIds(cages, diet)
        invariant count + |rows| == |FreeCageIds(cages, diet)|
        invariant count > 0 ==> id in FreeCageIds(cages, diet)
        invariant count == 0 ==> id == 0
        decreases |rows|
      {
        assert (forall r :: r !in rows) ==> rows == {};
        var row :| row in rows;
        id := row;
        count := count + 1;
        rows := rows - {row};
      }
    }

    /**
     * A cage of the diet with a slot reserved in it: a free ACTIVE cage if
     * there is one, otherwise a new cage of the default capacity.
     */
    method GetFreeCage(diet: string) returns (id: int)
      requires Valid()
      modifies this
      ensures Valid()
      ensures FreeCageIds(old(cages), diet) != {} ==>
        id in FreeCageIds(old(cages), diet) && nextCageId == old(nextCageId)
        && cages == old(cages)[id := Place(old(cages)[id])]
      ensures FreeCageIds(old(cages), diet) == {} ==>
        id == old(nextCageId) && id !in old(cages) && nextCageId == id + 1
        && cages == old(cages)[id := Place(NewCageRow(id, CageCapacity, diet))]
      ensures dinosaurs == old(dinosaurs) && nextDinosaurId == old(nextDinosaurId)
      ensures old(DownOnlyWhenEmpty()) ==> DownOnlyWhenEmpty()
    {
      var count;
      id, count := SelectFreeCage(diet);
      if count == 0 {
        // NewCage only rejects a capacity below 1, and CageCapacity is 20.
        var outcome;
        id, outcome := NewCage(CageCapacity, diet);
      }
      PlaceInCage(id);
    }

    /** The INSERT shared by PlaceDinosaurInCage and AddDinosaur. */
    method InsertDinosaur(d: Dinosaur, cageId: int)
      requires WellFormed() && cageId in cages
      modifies this
      ensures WellFormed()
      ensures dinosaurs == old(dinosaurs) + [DinosaurRow(d, old(nextDinosaurId), cageId)]
      ensures nextDinosaurId == old(nextDinosaurId) + 1
      ensures cages == old(cages) && nextCageId == old(nextCageId)
    {
      dinosaurs := dinosaurs + [DinosaurRow(d, nextDinosaurId, cageId)];
      nextDinosaurId := nextDinosaurId + 1;
    }

    /** Reserve a slot in the given cage with CheckCage, then insert the dinosaur there. */
    method PlaceDinosaurInCage(cageId: int, d: Dinosaur) returns (outcome: Outcome)
      requires Valid()
      modifies this
      ensures Valid()
      ensures outcome.Pass? <==> cageId in old(cages) && Admits(old(cages)[cageId], d.diet)
      ensures outcome.Pass? ==>
        cages == old(cages)[cageId := Place(old(cages)[cageId])]
        && dinosaurs == old(dinosaurs) + [DinosaurRow(d, old(nextDinosaurId), cageId)]
        && nextDinosaurId == old(nextDinosaurId) + 1
      ensures outcome.Fail? ==>
        cages == old(cages) && dinosaurs == old(dinosaurs) && nextDinosaurId == old(nextDinosaurId)
      ensures nextCageId == old(nextCageId)
      ensures old(CountsMatchRecords()) ==> CountsMatchRecords()
    {
      outcome := CheckCage(cageId, d.diet);
      if outcome.Fail? {
        return;
      }
      InsertDinosaur(d, cageId);
      if old(CountsMatchRecords()) {
        CountsMatchAfterAdmit(old(cages), old(dinosaurs), cages, DinosaurRow(d, old(nextDinosaurId), cageId));
      }
    }

    /**
     * Reserve a slot with GetFreeCage, then insert the dinosaur there. The
     * ghost `cage` names the cage chosen.
     */
    method AddDinosaur(d: Dinosaur) returns (outcome: Outcome, ghost cage: int)
      requires Valid()
      modifies this
      ensures Valid() && outcome == Pass
      ensures dinosaurs == old(dinosaurs) + [DinosaurRow(d, old(nextDinosaurId), cage)]
      ensures nextDinosaurId == old(nextDinosaurId) + 1
      ensures FreeCageIds(old(cages), d.diet) != {} ==>
        cage in FreeCageIds(old(cages), d.diet) && nextCageId == old(nextCageId)
        && cages == old(cages)[cage := Place(old(cages)[cage])]
      ensures FreeCageIds(old(cages), d.diet) == {} ==>
        cage == old(nextCageId) && cage !in old(cages) && nextCageId == cage + 1
        && cages == old(cages)[cage := Place(NewCageRow(cage, CageCapacity, d.diet))]
      ensures old(DownOnlyWhenEmpty()) ==> DownOnlyWhenEmpty()
      ensures old(CountsMatchRecords()) ==> CountsMatchRecords()
    {
      var id := GetFreeCage(d.diet);
      if id !in old(cages) {
        DinosaursInNone(old(dinosaurs), id);
      }
      InsertDinosaur(d, id);
      cage := id;
      outcome := Pass;
      if old(CountsMatchRecords()) {
        CountsMatchAfterAdmit(old(cages), old(dinosaurs), cages, DinosaurRow(d, old(nextDinosaurId), id));
      }
    }

    /** `UPDATE cages SET status` for one cage, which for DOWN also needs `count = 0`. */
    method SetCageStatus(cageId: int, status: string) returns (outcome: Outcome)
      requires Valid()
      modifies this
      ensures Valid()
      ensures outcome.Pass? <==> cageId in old(cages) && StatusUpdateMatches(old(cages)[cageId], status)
      ensures outcome.Pass? ==> cages == old(cages)[cageId := old(cages)[cageId].(status := status)]
      ensures outcome.Fail? ==> cages == old(cages) && outcome.msg == "cage status unchanged"
      ensures cages.Keys == old(cages).Keys
      ensures forall id :: id in cages ==> cages[id].count == old(cages)[id].count
      ensures dinosaurs == old(dinosaurs)
      ensures nextCageId == old(nextCageId) && nextDinosaurId == old(nextDinosaurId)
      ensures old(DownOnlyWhenEmpty()) ==> DownOnlyWhenEmpty()
      ensures old(CountsMatchRecords()) ==> CountsMatchRecords()
    {
      var num := 0;
      if cageId in cages && StatusUpdateMatches(cages[cageId], status) {
        cages := cages[cageId := cages[cageId].(status := status)];
        num := 1;
      }
      if num == 0 {
        return Fail("cage status unchanged");
      }
      return Pass;
    }

    /** The rows of the cages table, all of them or those of one status, each once. */
    method GetCages(filter: Option<string>) returns (result: seq<Cage>)
      requires Valid()
      ensures forall c :: c in result ==> c.id in cages && cages[c.id] == c && Selected(c, filter)
      ensures forall id :: id in cages && Selected(cages[id], filter) ==> cages[id] in result
      ensures forall i, j :: 0 <= i < j < |result| ==> result[i].id != result[j].id
    {
      var rows := set id | id in cages && Selected(cages[id], filter);
      result := [];
      while rows != {}
        invariant rows <= cages.Keys
        invariant forall id :: id in rows ==> Selected(cages[id], filter)
        invariant forall c :: c in result ==> c.id in cages && cages[c.id] == c && Selected(c, filter) && c.id !in rows
        invariant forall id :: id in cages && Selected(cages[id], filter) ==> id in rows || cages[id] in result
        invariant forall i, j :: 0 <= i < j < |result| ==> result[i].id != result[j].id
        decreases |rows|
      {
        assert (forall r :: r !in rows) ==> rows == {};
        var id :| id in rows;
        result := result + [cages[id]];
        rows := rows - {id};
      }
    }
  }
}
