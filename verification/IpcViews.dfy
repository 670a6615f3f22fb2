/** The endpoint array seen as a map from registered tasks to what is theirs. */
module IpcViews {
  import opened Common
  import opened IpcModel
  import opened IpcInvariant
  import opened IpcPreservation

  ghost function Owners(eps: seq<Endpoint>): set<nat>
  {
    set i | 0 <= i < |eps| && eps[i].owner != 0 :: eps[i].owner
  }

  /** Each registered task with the part `f` of its endpoint. */
  ghost function Keyed<T>(eps: seq<Endpoint>, f: Endpoint -> T): map<nat, T>
  {
    map id | id in Owners(eps) && Find(eps, id).Some? :: f(eps[Find(eps, id).value])
  }

  lemma KeyedAt<T>(eps: seq<Endpoint>, f: Endpoint -> T, i: nat)
    requires OwnersUnique(eps) && i < |eps| && eps[i].owner != 0
    ensures eps[i].owner in Keyed(eps, f) && Keyed(eps, f)[eps[i].owner] == f(eps[i])
  {
    FindUnique(eps, i);
  }

  lemma KeyedKeys<T>(eps: seq<Endpoint>, f: Endpoint -> T)
    requires OwnersUnique(eps)
    ensures Keyed(eps, f).Keys == Owners(eps)
  {
    forall id | id in Owners(eps) ensures id in Keyed(eps, f) {
      var j :| 0 <= j < |eps| && eps[j].owner != 0 && eps[j].owner == id;
      KeyedAt(eps, f, j);
    }
  }

  /** Every endpoint is changed the same way. */
  lemma KeyedAll<T(!new)>(before: seq<Endpoint>, after: seq<Endpoint>, f: Endpoint -> T, change: T -> T)
    requires |before| == |after|
    requires forall i :: 0 <= i < |before| ==> before[i].owner == after[i].owner && f(after[i]) == change(f(before[i]))
    ensures Keyed(after, f) == map id | id in Keyed(before, f) :: change(Keyed(before, f)[id])
  {
    assert Owners(before) == Owners(after);
    forall id ensures Find(before, id) == Find(after, id) { FindSameOwners(before, after, id); }
  }

  lemma KeyedSame<T>(before: seq<Endpoint>, after: seq<Endpoint>, f: Endpoint -> T)
    requires |before| == |after|
    requires forall i :: 0 <= i < |before| ==> before[i].owner == after[i].owner && f(before[i]) == f(after[i])
    ensures Keyed(before, f) == Keyed(after, f)
  {
    assert Owners(before) == Owners(after);
    forall id ensures Find(before, id) == Find(after, id) { FindSameOwners(before, after, id); }
  }

  lemma OwnersPut(before: seq<Endpoint>, after: seq<Endpoint>, i: nat)
    requires i < |before| == |after| && after[i].owner != 0
    requires before[i].owner == after[i].owner || before[i].owner == 0
    requires forall j :: 0 <= j < |before| && j != i ==> before[j].owner == after[j].owner
    ensures Owners(after) == Owners(before) + {after[i].owner}
  {
    forall id | id in Owners(before) ensures id in Owners(after) {
      var j :| 0 <= j < |before| && before[j].owner != 0 && before[j].owner == id;
      assert after[j].owner == id;
    }
  }

  lemma KeyedElsewhere<T>(before: seq<Endpoint>, after: seq<Endpoint>, f: Endpoint -> T, i: nat, id: nat)
    requires OwnersUnique(before) && OwnersUnique(after) && i < |before| == |after|
    requires forall j :: 0 <= j < |before| && j != i ==> before[j].owner == after[j].owner && f(before[j]) == f(after[j])
    requires id in Owners(before) && id != before[i].owner
    ensures id in Keyed(after, f) && id in Keyed(before, f) && Keyed(after, f)[id] == Keyed(before, f)[id]
  {
    var j :| 0 <= j < |before| && before[j].owner != 0 && before[j].owner == id;
    KeyedAt(before, f, j);
    KeyedAt(after, f, j);
  }

  /** One endpoint is written, for a task that has it or one that gets it. */
  lemma KeyedPut<T>(before: seq<Endpoint>, after: seq<Endpoint>, f: Endpoint -> T, i: nat)
    requires OwnersUnique(before) && OwnersUnique(after) && i < |before| == |after| && after[i].owner != 0
    requires before[i].owner == after[i].owner || before[i].owner == 0
    requires forall j :: 0 <= j < |before| && j != i ==> before[j].owner == after[j].owner && f(before[j]) == f(after[j])
    ensures Keyed(after, f) == Keyed(before, f)[after[i].owner := f(after[i])]
  {
    forall id | id in Owners(before) && id != after[i].owner
      ensures id in Keyed(after, f) && id in Keyed(before, f) && Keyed(after, f)[id] == Keyed(before, f)[id]
    {
      KeyedElsewhere(before, after, f, i, id);
    }
    KeyedAt(after, f, i);
    OwnersPut(before, after, i);
    KeyedKeys(before, f);
    KeyedKeys(after, f);
    UpdatedMap(Keyed(before, f), Keyed(after, f), after[i].owner, f(after[i]));
  }

  lemma UpdatedMap<T>(before: map<nat, T>, after: map<nat, T>, key: nat, value: T)
    requires after.Keys == before.Keys + {key} && after[key] == value
    requires forall id :: id in before && id != key ==> after[id] == before[id]
    ensures after == before[key := value]
  {
  }

  /** One endpoint is given up. */
  lemma KeyedDrop<T>(before: seq<Endpoint>, after: seq<Endpoint>, f: Endpoint -> T, i: nat)
    requires OwnersUnique(before) && OwnersUnique(after) && i < |before| == |after|
    requires before[i].owner != 0 && after[i].owner == 0
    requires forall j :: 0 <= j < |before| && j != i ==> before[j].owner == after[j].owner && f(before[j]) == f(after[j])
    ensures before[i].owner in Keyed(before, f) && Keyed(after, f) == Keyed(before, f) - {before[i].owner}
  {
    KeyedAt(before, f, i);
    OwnersPut(after, before, i);
    forall id | id in Owners(after) && id != before[i].owner
      ensures id in Keyed(after, f) && id in Keyed(before, f) && Keyed(after, f)[id] == Keyed(before, f)[id]
    {
      KeyedElsewhere(before, after, f, i, id);
    }
    assert before[i].owner !in Owners(after);
    KeyedKeys(before, f);
    KeyedKeys(after, f);
    DroppedMap(Keyed(before, f), Keyed(after, f), before[i].owner);
  }

  lemma DroppedMap<T>(before: map<nat, T>, after: map<nat, T>, key: nat)
    requires after.Keys == before.Keys - {key}
    requires forall id :: id in after ==> after[id] == before[id]
    ensures after == before - {key}
  {
  }

  lemma FindKeyed<T>(eps: seq<Endpoint>, f: Endpoint -> T, id: nat)
    requires OwnersUnique(eps) && id != 0
    ensures id in Keyed(eps, f) <==> Find(eps, id).Some?
    ensures Find(eps, id).Some? ==> Keyed(eps, f)[id] == f(eps[Find(eps, id).value])
  {
    var r := Find(eps, id);
    if r.Some? { KeyedAt(eps, f, r.value); }
  }
}
