/** The migration history table and the two requests the engine makes of it:
    a conditional insert of one record and a read of the latest record of a
    migration set. The backend is abstract: a map from primary key to record,
    plus a script of injected request failures. */
module VersionStore {
  import opened MigratorTypes

  /** The failure the backend gives for request number `c`, if any. Requests
      beyond the end of the script succeed. */
  function Fault(faults: seq<Option<string>>, c: nat): Option<string>
  {
    if c < |faults| then faults[c] else None
  }

  /** Some record of `records` belongs to `migrationSet`. */
  predicate HasRecords(records: map<Key, string>, migrationSet: string)
  {
    exists k :: k in records && k.migrationSet == migrationSet
  }

  /** No key of `migrationSet` in `ks` is numbered above `v`. */
  predicate AtMostIn(ks: set<Key>, migrationSet: string, v: nat)
  {
    forall k :: k in ks && k.migrationSet == migrationSet ==> k.versionNo <= v
  }

  /** No record of `migrationSet` is numbered above `v`. */
  predicate AtMost(records: map<Key, string>, migrationSet: string, v: nat)
  {
    AtMostIn(records.Keys, migrationSet, v)
  }

  /** `v` is the latest version of `migrationSet`: the highest version number
      of its records, or 0 when it has none. */
  predicate IsLatest(records: map<Key, string>, migrationSet: string, v: nat)
  {
    AtMost(records, migrationSet, v) && (v == 0 || Key(migrationSet, v) in records)
  }

  /** Every non-empty migration set has a highest-numbered record. */
  lemma {:induction false} TopKeyExists(ks: set<Key>, migrationSet: string)
    requires exists k :: k in ks && k.migrationSet == migrationSet
    ensures exists top :: top in ks && top.migrationSet == migrationSet && AtMostIn(ks, migrationSet, top.versionNo)
    decreases ks
  {
    var x :| x in ks && x.migrationSet == migrationSet;
    var rest := ks - {x};
    if exists k :: k in rest && k.migrationSet == migrationSet {
      TopKeyExists(rest, migrationSet);
      var top :| top in rest && top.migrationSet == migrationSet && AtMostIn(rest, migrationSet, top.versionNo);
      var best := if top.versionNo < x.versionNo then x else top;
      forall k | k in ks && k.migrationSet == migrationSet
        ensures k.versionNo <= best.versionNo
      {
        if k != x { assert k in rest; }
      }
      assert best in ks && best.migrationSet == migrationSet && AtMostIn(ks, migrationSet, best.versionNo);
    } else {
      forall k | k in ks && k.migrationSet == migrationSet
        ensures k.versionNo <= x.versionNo
      {
        assert k !in rest;
      }
      assert AtMostIn(ks, migrationSet, x.versionNo);
    }
  }

  /** The latest version of a migration set always exists. */
  lemma LatestExists(records: map<Key, string>, migrationSet: string)
    ensures exists v :: IsLatest(records, migrationSet, v)
  {
    if HasRecords(records, migrationSet) {
      TopKeyExists(records.Keys, migrationSet);
      var top :| top in records.Keys && top.migrationSet == migrationSet && AtMostIn(records.Keys, migrationSet, top.versionNo);
      assert Key(migrationSet, top.versionNo) == top;
      assert IsLatest(records, migrationSet, top.versionNo);
    } else {
      assert IsLatest(records, migrationSet, 0);
    }
  }

  /** The latest version is unique. */
  lemma LatestUnique(records: map<Key, string>, migrationSet: string, v: nat, w: nat)
    requires IsLatest(records, migrationSet, v) && IsLatest(records, migrationSet, w)
    ensures v == w
  {
    if v != 0 { assert Key(migrationSet, v) in records; }
    if w != 0 { assert Key(migrationSet, w) in records; }
  }

  /** The latest version of `migrationSet` in `records`. */
  ghost function Latest(records: map<Key, string>, migrationSet: string): (v: nat)
    ensures IsLatest(records, migrationSet, v)
  {
    LatestExists(records, migrationSet);
    var v :| IsLatest(records, migrationSet, v); v
  }

  /** Inserting the record numbered just above the latest makes it the latest. */
  lemma LatestAfterNext(records: map<Key, string>, migrationSet: string, v: nat, name: string)
    requires IsLatest(records, migrationSet, v)
    ensures Key(migrationSet, v + 1) !in records
    ensures IsLatest(records[Key(migrationSet, v + 1) := name], migrationSet, v + 1)
  {
  }

  /** The version table, reached through its two requests. Every request
      consumes one entry of the fault script. */
  class Store {
    /** The persisted records: the primary key of each, mapped to the one
        attribute outside the key, the definition's name. */
    var records: map<Key, string>
    /** Injected backend failures: request number c fails with the text
        `Fault(faults, c)` when that is present. */
    const faults: seq<Option<string>>
    /** Number of requests made so far. */
    var requests: nat

    constructor (faults: seq<Option<string>>)
      ensures records == map[] && this.faults == faults && requests == 0
    {
      records := map[];
      this.faults := faults;
      requests := 0;
    }

    /** Conditional insert of one record: it is written only when no record
        has the same (migration set, version number) key. */
    method Put(r: VersionRecord) returns (err: Option<StoreError>)
      modifies this`records, this`requests
      ensures requests == old(requests) + 1
      ensures err.None? <==> Fault(faults, old(requests)).None? && r.KeyOf() !in old(records)
      ensures Fault(faults, old(requests)).Some? ==>
        err == Some(Unavailable(Fault(faults, old(requests)).value)) && records == old(records)
      ensures Fault(faults, old(requests)).None? && r.KeyOf() in old(records) ==>
        err == Some(ConditionalCheckFailed) && records == old(records)
      ensures Fault(faults, old(requests)).None? && r.KeyOf() !in old(records) ==>
        err == None && records == old(records)[r.KeyOf() := r.name]
    {
      var fault := Fault(faults, requests);
      requests := requests + 1;
      if fault.Some? {
        return Some(Unavailable(fault.value));
      }
      if r.KeyOf() in records {
        return Some(ConditionalCheckFailed);
      }
      records := records[r.KeyOf() := r.name];
      return None;
    }

    /** The record of `migrationSet` with the highest version number, or the
        zero record when the set has none. */
    method Get(migrationSet: string) returns (res: Result<VersionRecord, StoreError>)
      modifies this`requests
      ensures requests == old(requests) + 1
      ensures match Fault(faults, old(requests))
        case Some(detail) => res == Err(Unavailable(detail))
        case None =>
          res.Ok? && IsLatest(records, migrationSet, res.value.versionNo) &&
          if HasRecords(records, migrationSet) then
            res.value.migrationSet == migrationSet &&
            res.value.KeyOf() in records && records[res.value.KeyOf()] == res.value.name
          else
            res.value == ZeroVersion
    {
      var fault := Fault(faults, requests);
      requests := requests + 1;
      if fault.Some? {
        return Err(Unavailable(fault.value));
      }
      if !HasRecords(records, migrationSet) {
        return Ok(ZeroVersion);
      }
      TopKeyExists(records.Keys, migrationSet);
      var top :| top in records && top.migrationSet == migrationSet && AtMostIn(records.Keys, migrationSet, top.versionNo);
      return Ok(VersionRecord(top.migrationSet, top.versionNo, records[top]));
    }
  }
}
