/** The per-area results of an inspection (`AreaResult`) and the table of them
    keyed by area number (`Program.areaResults`). */
module Areas {
  import opened Text
  import opened Settings
  import opened Inputs

  /** `IsFulfilled()` on a read code: something was read. */
  predicate Fulfilled(readCode: string)
  {
    readCode != ""
  }

  /** `IsValid()` on a read code: something was read and it holds the expected
      material number as an ordinal, case-sensitive substring. */
  predicate CodeValid(readCode: string, material: string)
  {
    readCode != "" && Contains(readCode, material)
  }

  /** A valid code is always a fulfilled one. */
  lemma ValidIsFulfilled(readCode: string, material: string)
    requires CodeValid(readCode, material)
    ensures Fulfilled(readCode)
  {
  }

  /** "ABC123" is a valid read for material "123"; "ABC" and "" are not. */
  lemma ValidityExamples()
    ensures CodeValid("ABC123", "123")
    ensures !CodeValid("ABC", "123") && !CodeValid("", "123")
    ensures Fulfilled("ABC") && !Fulfilled("")
  {
    assert OccursAt("ABC123", "123", 3);
    assert !OccursAt("ABC", "123", 0) by {
      assert "ABC"[0..3][0] == 'A';
    }
  }

  /** `AreaResult`: the area to check, the expected component, the code read.
      `Area` and `Component` are only assigned by the constructor. */
  class AreaResult {
    const area: AreaConfig
    const component: Component
    var readCode: string

    constructor (area: AreaConfig, component: Component)
      ensures this.area == area && this.component == component
      ensures readCode == ""
      ensures !IsFulfilled() && !IsValid()
    {
      this.area := area;
      this.component := component;
      readCode := "";
    }

    predicate IsFulfilled()
      reads this
    {
      Fulfilled(readCode)
    }

    predicate IsValid()
      reads this
    {
      CodeValid(readCode, component.material)
    }

    /** The result as a value. */
    function Snapshot(): AreaSnapshot
      reads this
    {
      AreaSnapshot(area, component, readCode)
    }
  }

  /** The fields of an `AreaResult` at one moment. */
  datatype AreaSnapshot = AreaSnapshot(area: AreaConfig, component: Component, readCode: string)
  {
    predicate IsValid()
    {
      CodeValid(readCode, component.material)
    }
  }

  /** `Dictionary<string, AreaResult>`: the area numbers in insertion order
      (the order of `Values`) and the object stored under each. */
  datatype AreaTable = AreaTable(nos: seq<string>, results: map<string, AreaResult>)
  {
    /** Keys are the listed numbers, listed once each, and no object is stored twice. */
    ghost predicate Valid()
    {
      (forall i, j :: 0 <= i < j < |nos| ==> nos[i] != nos[j]) &&
      (forall no :: no in results <==> no in nos) &&
      (forall i, j :: 0 <= i < j < |nos| ==> results[nos[i]] != results[nos[j]])
    }

    /** `Count`: the number of areas in the table. */
    function Count(): nat
    {
      |nos|
    }

    /** The objects stored in the table. */
    function Objects(): set<AreaResult>
    {
      results.Values
    }

    /** `ReadCode` of every area, by area number. */
    function Codes(): (m: map<string, string>)
      reads Objects()
      ensures m.Keys == results.Keys
    {
      map no | no in results :: results[no].readCode
    }

    /** `Values.All(r => r.IsFulfilled())`. */
    predicate AllFulfilled()
      reads Objects()
    {
      forall r | r in results.Values :: r.IsFulfilled()
    }

    /** `Values` as values, in insertion order. */
    function Snapshots(): (s: seq<AreaSnapshot>)
      requires forall i :: 0 <= i < |nos| ==> nos[i] in results
      reads Objects()
      ensures |s| == |nos|
      ensures forall i :: 0 <= i < |nos| ==> s[i] == results[nos[i]].Snapshot()
    {
      SnapshotsOf(nos, results)
    }
  }

  /** Different keys of a valid table hold different objects. */
  lemma DistinctObjects(t: AreaTable, a: string, b: string)
    requires t.Valid() && a in t.results && b in t.results && a != b
    ensures t.results[a] != t.results[b]
  {
    var i :| 0 <= i < |t.nos| && t.nos[i] == a;
    var j :| 0 <= j < |t.nos| && t.nos[j] == b;
    if i < j {
      assert t.results[t.nos[i]] != t.results[t.nos[j]];
    } else {
      assert t.results[t.nos[j]] != t.results[t.nos[i]];
    }
  }

  function SnapshotsOf(nos: seq<string>, results: map<string, AreaResult>): (s: seq<AreaSnapshot>)
    requires forall i :: 0 <= i < |nos| ==> nos[i] in results
    reads results.Values
    ensures |s| == |nos|
    ensures forall i :: 0 <= i < |nos| ==> s[i] == results[nos[i]].Snapshot()
  {
    if nos == [] then []
    else SnapshotsOf(nos[..|nos| - 1], results) + [results[nos[|nos| - 1]].Snapshot()]
  }
}
