/**
 * The saved patient list as the edit and delete handlers see it: records
 * identified by an `id`, whose other fields are a map from field name to
 * value. Update-by-id finds the first record with the id and merges the
 * edited fields over it; delete-by-id filters out every record with the id.
 */
module Records {

  /** One stored patient: its `id` and its other fields. */
  datatype Record<V> = Record(id: string, fields: map<string, V>)

  /**
   * `{ ...prev, ...upd }` where `upd` carries no `id`: the edited fields win,
   * every other field of `prev` is kept, and so is the id.
   */
  function Merge<V>(prev: Record<V>, upd: map<string, V>): (r: Record<V>)
    ensures r.id == prev.id
    ensures r.fields.Keys == prev.fields.Keys + upd.Keys
    ensures forall k :: k in upd ==> r.fields[k] == upd[k]
    ensures forall k :: k in prev.fields && k !in upd ==> r.fields[k] == prev.fields[k]
  {
    Record(prev.id, prev.fields + upd)
  }

  /** `findIndex(p => p.id === id)`: the first index holding the id, or -1. */
  function IndexOfId<V>(s: seq<Record<V>>, id: string): (i: int)
    ensures -1 <= i < |s|
    ensures i == -1 <==> forall k :: 0 <= k < |s| ==> s[k].id != id
    ensures 0 <= i ==> s[i].id == id && forall k :: 0 <= k < i ==> s[k].id != id
  {
    if s == [] then -1
    else if s[0].id == id then 0
    else
      var j := IndexOfId(s[1..], id);
      assert forall k :: 1 <= k < |s| ==> s[k] == s[1..][k - 1];
      if j == -1 then -1 else j + 1
  }

  /**
   * The list after the edit handler's merge. It keeps the length and every
   * id, changes the record at the first matching index into the merge of it
   * with the edited fields, and leaves every other record alone; an unknown
   * id leaves the list untouched.
   */
  function MergeById<V>(s: seq<Record<V>>, id: string, upd: map<string, V>): (r: seq<Record<V>>)
    ensures |r| == |s|
    ensures forall k :: 0 <= k < |s| ==> r[k].id == s[k].id
    ensures IndexOfId(s, id) == -1 ==> r == s
    ensures IndexOfId(s, id) != -1 ==> r[IndexOfId(s, id)] == Merge(s[IndexOfId(s, id)], upd)
    ensures forall k :: 0 <= k < |s| && k != IndexOfId(s, id) ==> r[k] == s[k]
  {
    var i := IndexOfId(s, id);
    if i == -1 then s else s[i := Merge(s[i], upd)]
  }

  /** `filter(p => p.id !== id)`. */
  function RemoveId<V>(s: seq<Record<V>>, id: string): (r: seq<Record<V>>)
    ensures |r| <= |s|
    ensures forall k :: 0 <= k < |r| ==> r[k].id != id
  {
    if s == [] then []
    else if s[0].id == id then RemoveId(s[1..], id)
    else [s[0]] + RemoveId(s[1..], id)
  }

  // ---------------------------------------------------------------- delete-by-id

  /** Filtering a concatenation filters each part. */
  lemma {:induction false} RemoveIdAppend<V>(a: seq<Record<V>>, b: seq<Record<V>>, id: string)
    ensures RemoveId(a + b, id) == RemoveId(a, id) + RemoveId(b, id)
  {
    if a == [] {
      assert a + b == b;
    } else {
      assert (a + b)[0] == a[0];
      assert (a + b)[1..] == a[1..] + b;
      RemoveIdAppend(a[1..], b, id);
    }
  }

  /** One record is dropped exactly when it has the id. */
  lemma RemoveIdSingle<V>(x: Record<V>, id: string)
    ensures RemoveId([x], id) == if x.id == id then [] else [x]
  {
    assert [x][1..] == [];
  }

  /** A list without the id is left as it is. */
  lemma {:induction false} RemoveIdAbsent<V>(s: seq<Record<V>>, id: string)
    requires forall k :: 0 <= k < |s| ==> s[k].id != id
    ensures RemoveId(s, id) == s
  {
    if s != [] {
      assert forall k :: 1 <= k < |s| ==> s[1..][k - 1] == s[k];
      RemoveIdAbsent(s[1..], id);
      assert s == [s[0]] + s[1..];
    }
  }

  /** Deleting twice is deleting once. */
  lemma RemoveIdIdempotent<V>(s: seq<Record<V>>, id: string)
    ensures RemoveId(RemoveId(s, id), id) == RemoveId(s, id)
  {
    RemoveIdAbsent(RemoveId(s, id), id);
  }

  /** Delete-by-id keeps exactly the records whose id differs. */
  lemma {:induction false} RemoveIdMembers<V>(s: seq<Record<V>>, id: string)
    ensures forall x :: x in RemoveId(s, id) <==> x in s && x.id != id
  {
    if s != [] {
      RemoveIdMembers(s[1..], id);
      assert s == [s[0]] + s[1..];
      forall x
        ensures x in s <==> x == s[0] || x in s[1..]
      {
      }
    }
  }

  /** The list is unchanged exactly when no record has the id. */
  lemma {:induction false} RemoveIdShrinks<V>(s: seq<Record<V>>, id: string)
    ensures |RemoveId(s, id)| == |s| <==> IndexOfId(s, id) == -1
  {
    if s != [] {
      RemoveIdShrinks(s[1..], id);
      assert forall k :: 1 <= k < |s| ==> s[1..][k - 1] == s[k];
    }
  }

  /** Deleting a record after editing it leaves the same list as deleting it at once. */
  lemma RemoveAfterMerge<V>(s: seq<Record<V>>, id: string, upd: map<string, V>)
    ensures RemoveId(MergeById(s, id, upd), id) == RemoveId(s, id)
  {
    var i := IndexOfId(s, id);
    if i != -1 {
      var r := MergeById(s, id, upd);
      assert s == s[..i] + [s[i]] + s[i + 1..];
      assert r == s[..i] + [Merge(s[i], upd)] + s[i + 1..];
      RemoveIdAppend(s[..i] + [s[i]], s[i + 1..], id);
      RemoveIdAppend(s[..i], [s[i]], id);
      RemoveIdAppend(s[..i] + [Merge(s[i], upd)], s[i + 1..], id);
      RemoveIdAppend(s[..i], [Merge(s[i], upd)], id);
      RemoveIdSingle(s[i], id);
      RemoveIdSingle(Merge(s[i], upd), id);
    }
  }

  // ---------------------------------------------------------------- the stored list

  /** The `patients` array in local storage, loaded, changed and stored back. */
  class PatientList<V> {
    var records: seq<Record<V>>

    /** `JSON.parse(localStorage.getItem("patients")) || []`, already decoded. */
    constructor (saved: seq<Record<V>>)
      ensures records == saved
    {
      records := saved;
    }

    /** `patients.push(patient)`. */
    method Push(p: Record<V>)
      modifies this
      ensures records == old(records) + [p]
    {
      records := records + [p];
    }

    /** `savedPatients.findIndex(p => p.id === id)`. */
    method FindIndex(id: string) returns (index: int)
      ensures index == IndexOfId(records, id)
    {
      var i := 0;
      while i < |records|
        invariant 0 <= i <= |records|
        invariant forall k :: 0 <= k < i ==> records[k].id != id
      {
        if records[i].id == id {
          return i;
        }
        i := i + 1;
      }
      return -1;
    }

    /**
     * The edit handler's load-and-update: reports "not found" when no record
     * has the id, otherwise overwrites the first such record with its merge.
     */
    method UpdateById(id: string, upd: map<string, V>) returns (found: bool)
      modifies this
      ensures found <==> IndexOfId(old(records), id) != -1
      ensures records == MergeById(old(records), id, upd)
    {
      var index := FindIndex(id);
      if index == -1 {
        return false;
      }
      records := records[index := Merge(records[index], upd)];
      return true;
    }

    /** The delete handler: keep the records whose id differs. */
    method DeleteById(id: string)
      modifies this
      ensures records == RemoveId(old(records), id)
    {
      records := RemoveId(records, id);
    }
  }
}
