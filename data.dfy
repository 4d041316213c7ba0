/** The constants, records and status check of package das (das/data.go). */
module Data {
  import opened Text

  const Herbivore: string := "herbivore"
  const HerbivoreCode: string := "H"
  const Carnivore: string := "carnivore"
  const CarnivoreCode: string := "C"
  const StatusDown: string := "DOWN"
  const StatusActive: string := "ACTIVE"

  /** The capacity of a cage created on demand. */
  const CageCapacity: int := 20

  /** A row of the dinosaurs table. Go declares ID and Cage unsigned; ints suffice here. */
  datatype Dinosaur = Dinosaur(id: int, species: string, name: string, diet: string, cage: int)

  /** A row of the cages table: `count` is the occupancy, `kind` the diet code. */
  datatype Cage = Cage(id: int, status: string, capacity: int, count: int, kind: string)

  predicate IsDietCode(diet: string) { diet == HerbivoreCode || diet == CarnivoreCode }

  /** Whether a string is one of the two cage statuses. */
  function ValidStatus(status: string): (r: bool)
    ensures r ==> status != [] && ToUpper(status) == status
    ensures r ==> status == StatusDown || status == StatusActive
    ensures status == StatusDown || status == StatusActive ==> r
  {
    match status
    case "DOWN" => true
    case "ACTIVE" => true
    case _ => false
  }

  /** Status is case-sensitive: the lower-case form of a valid status is not valid. */
  lemma ValidStatusCaseSensitive(status: string)
    requires ValidStatus(status)
    ensures !ValidStatus(ToLower(status))
  {
    assert ToLower(status)[0] != UpperChar(ToLower(status)[0]);
  }

  /** The two statuses and the two diet codes are distinct, and the default capacity is admissible. */
  lemma ConstantsDistinct()
    ensures StatusDown != StatusActive && HerbivoreCode != CarnivoreCode
    ensures CageCapacity >= 1
    ensures !ValidStatus("") && IsDietCode(HerbivoreCode) && IsDietCode(CarnivoreCode)
  {
  }
}
