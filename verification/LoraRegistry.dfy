/** LoRARegistry of omniai/engine/lora.py: the loaded adapters, the active one, the rollback
    target, and their persisted copy. A Python dict keeps insertion order, so the loaded table
    is a sequence of records with distinct names. */
module LoraRegistry {
  import opened Options

  datatype AdapterRecord = AdapterRecord(name: string, path: string, loadedAt: real)

  datatype Registry = Registry(loaded: seq<AdapterRecord>, active: Option<string>, previous: Option<string>)

  const EMPTY := Registry([], None, None)

  function Names(loaded: seq<AdapterRecord>): set<string> {
    set i | 0 <= i < |loaded| :: loaded[i].name
  }

  ghost predicate Distinct(loaded: seq<AdapterRecord>) {
    forall i, j :: 0 <= i < j < |loaded| ==> loaded[i].name != loaded[j].name
  }

  /** dict assignment: an existing key keeps its place. */
  function Put(loaded: seq<AdapterRecord>, record: AdapterRecord): seq<AdapterRecord> {
    if loaded == [] then [record]
    else if loaded[0].name == record.name then [record] + loaded[1..]
    else [loaded[0]] + Put(loaded[1..], record)
  }

  /** dict.pop(name, None). */
  function Without(loaded: seq<AdapterRecord>, name: string): seq<AdapterRecord> {
    if loaded == [] then []
    else if loaded[0].name == name then loaded[1..]
    else [loaded[0]] + Without(loaded[1..], name)
  }

  function Lookup(loaded: seq<AdapterRecord>, name: string): (r: AdapterRecord)
    requires name in Names(loaded)
    ensures r in loaded && r.name == name
  {
    if loaded[0].name == name then loaded[0]
    else
      assert name in Names(loaded[1..]) by { TailNames(loaded); }
      Lookup(loaded[1..], name)
  }

  lemma TailNames(loaded: seq<AdapterRecord>)
    requires loaded != []
    ensures Names(loaded) == {loaded[0].name} + Names(loaded[1..])
  {
    forall n | n in Names(loaded) ensures n in {loaded[0].name} + Names(loaded[1..]) {
      var i :| 0 <= i < |loaded| && loaded[i].name == n;
      if i > 0 {
        assert loaded[1..][i - 1].name == n;
      }
    }
    forall n | n in Names(loaded[1..]) ensures n in Names(loaded) {
      var i :| 0 <= i < |loaded[1..]| && loaded[1..][i].name == n;
      assert loaded[i + 1].name == n;
    }
  }

  lemma ConsNames(head: AdapterRecord, tail: seq<AdapterRecord>)
    ensures Names([head] + tail) == {head.name} + Names(tail)
    ensures Distinct([head] + tail) <==> head.name !in Names(tail) && Distinct(tail)
  {
    var all := [head] + tail;
    TailNames(all);
    assert all[1..] == tail;
    if Distinct(all) {
      forall i | 0 <= i < |tail| ensures tail[i].name != head.name {
        assert all[i + 1] == tail[i];
      }
      forall i, j | 0 <= i < j < |tail| ensures tail[i].name != tail[j].name {
        assert all[i + 1] == tail[i] && all[j + 1] == tail[j];
      }
    }
  }

  lemma {:induction false} PutNames(loaded: seq<AdapterRecord>, record: AdapterRecord)
    requires Distinct(loaded)
    ensures Distinct(Put(loaded, record))
    ensures Names(Put(loaded, record)) == Names(loaded) + {record.name}
    ensures |Put(loaded, record)| == |loaded| + (if record.name in Names(loaded) then 0 else 1)
  {
    if loaded == [] {
      ConsNames(record, []);
    } else {
      assert loaded == [loaded[0]] + loaded[1..];
      ConsNames(loaded[0], loaded[1..]);
      if loaded[0].name == record.name {
        ConsNames(record, loaded[1..]);
      } else {
        PutNames(loaded[1..], record);
        ConsNames(loaded[0], Put(loaded[1..], record));
      }
    }
  }

  lemma {:induction false} WithoutNames(loaded: seq<AdapterRecord>, name: string)
    requires Distinct(loaded)
    ensures Distinct(Without(loaded, name))
    ensures Names(Without(loaded, name)) == Names(loaded) - {name}
    ensures |Without(loaded, name)| == |loaded| - (if name in Names(loaded) then 1 else 0)
  {
    if loaded != [] {
      assert loaded == [loaded[0]] + loaded[1..];
      ConsNames(loaded[0], loaded[1..]);
      if loaded[0].name != name {
        WithoutNames(loaded[1..], name);
        ConsNames(loaded[0], Without(loaded[1..], name));
      }
    }
  }

  /** Assigning a key stores the record under its name and leaves every other entry alone. */
  lemma {:induction false} PutLookup(loaded: seq<AdapterRecord>, record: AdapterRecord, name: string)
    requires Distinct(loaded) && name in Names(Put(loaded, record))
    ensures name == record.name ==> Lookup(Put(loaded, record), name) == record
    ensures name != record.name ==> name in Names(loaded) && Lookup(Put(loaded, record), name) == Lookup(loaded, name)
  {
    PutNames(loaded, record);
    if loaded != [] {
      TailNames(loaded);
      TailNames(Put(loaded, record));
      assert loaded == [loaded[0]] + loaded[1..];
      ConsNames(loaded[0], loaded[1..]);
      if loaded[0].name != record.name {
        assert Put(loaded, record)[1..] == Put(loaded[1..], record);
        if name != loaded[0].name {
          PutLookup(loaded[1..], record, name);
        }
      } else {
        assert Put(loaded, record)[1..] == loaded[1..];
      }
    }
  }

  /** Popping a key leaves every other entry alone. */
  lemma {:induction false} WithoutLookup(loaded: seq<AdapterRecord>, gone: string, name: string)
    requires Distinct(loaded) && name in Names(Without(loaded, gone))
    ensures name in Names(loaded) && Lookup(Without(loaded, gone), name) == Lookup(loaded, name)
  {
    WithoutNames(loaded, gone);
    if loaded != [] {
      TailNames(loaded);
      assert loaded == [loaded[0]] + loaded[1..];
      ConsNames(loaded[0], loaded[1..]);
      if loaded[0].name != gone {
        TailNames(Without(loaded, gone));
        assert Without(loaded, gone)[1..] == Without(loaded[1..], gone);
        if name != loaded[0].name {
          WithoutLookup(loaded[1..], gone, name);
        }
      }
    }
  }

  // ---- operations ----

  function Register(r: Registry, record: AdapterRecord): Registry {
    r.(loaded := Put(r.loaded, record))
  }

  function Activate(r: Registry, name: string): Registry {
    r.(previous := if r.active != Some(name) then r.active else r.previous, active := Some(name))
  }

  function Deactivate(r: Registry): Registry {
    r.(previous := if r.active.Some? then r.active else r.previous, active := None)
  }

  function RemoveAdapter(r: Registry, name: string): Registry {
    Registry(Without(r.loaded, name),
             if r.active == Some(name) then None else r.active,
             if r.previous == Some(name) then None else r.previous)
  }

  predicate Protected(r: Registry, name: string) {
    r.active == Some(name) || r.previous == Some(name)
  }

  /** The first of the oldest records that are not protected, from index i on. */
  function OldestFrom(r: Registry, i: nat): (best: Option<nat>)
    requires i <= |r.loaded|
    ensures best.None? <==> forall j :: i <= j < |r.loaded| ==> Protected(r, r.loaded[j].name)
    ensures best.Some? ==> i <= best.value < |r.loaded| && !Protected(r, r.loaded[best.value].name)
    ensures best.Some? ==> forall j :: i <= j < |r.loaded| && !Protected(r, r.loaded[j].name) ==>
                             r.loaded[best.value].loadedAt <= r.loaded[j].loadedAt
    ensures best.Some? ==> forall j :: i <= j < best.value && !Protected(r, r.loaded[j].name) ==>
                             r.loaded[best.value].loadedAt < r.loaded[j].loadedAt
    decreases |r.loaded| - i
  {
    if i == |r.loaded| then None
    else
      var rest := OldestFrom(r, i + 1);
      if Protected(r, r.loaded[i].name) then rest
      else if rest.Some? && r.loaded[rest.value].loadedAt < r.loaded[i].loadedAt then rest
      else Some(i)
  }

  /** No unprotected record is older than record i. */
  ghost predicate OldestFree(r: Registry, i: nat)
    requires i < |r.loaded|
  {
    forall j :: 0 <= j < |r.loaded| && !Protected(r, r.loaded[j].name) ==>
      r.loaded[i].loadedAt <= r.loaded[j].loadedAt
  }

  function EvictionCandidate(r: Registry, capacity: int): (victim: Option<string>)
    ensures victim.None? <==>
            |r.loaded| < capacity || forall i :: 0 <= i < |r.loaded| ==> Protected(r, r.loaded[i].name)
    ensures victim.Some? ==> victim.value in Names(r.loaded) && !Protected(r, victim.value)
    ensures victim.Some? ==> exists i :: 0 <= i < |r.loaded| && r.loaded[i].name == victim.value && OldestFree(r, i)
  {
    if |r.loaded| < capacity then None
    else
      match OldestFrom(r, 0)
      case None => None
      case Some(i) => Some(r.loaded[i].name)
  }

  // ---- persistence ----

  /** {r["name"]: AdapterRecord(**r) for r in list}. */
  function FromList(list: seq<AdapterRecord>): seq<AdapterRecord> {
    if list == [] then []
    else Put(FromList(list[..|list| - 1]), list[|list| - 1])
  }

  /** A registry opened over the given file. */
  function Restore(file: Option<Registry>): Registry {
    match file
    case None => EMPTY
    case Some(r) => r.(loaded := FromList(r.loaded))
  }

  lemma {:induction false} PutAppends(loaded: seq<AdapterRecord>, record: AdapterRecord)
    requires record.name !in Names(loaded)
    ensures Put(loaded, record) == loaded + [record]
  {
    if loaded != [] {
      TailNames(loaded);
      PutAppends(loaded[1..], record);
    }
  }

  /** Reading back what was written gives the same table, in the same order. */
  lemma {:induction false} FromListIsIdentity(list: seq<AdapterRecord>)
    requires Distinct(list)
    ensures FromList(list) == list
  {
    if list != [] {
      var k := |list| - 1;
      FromListIsIdentity(list[..k]);
      PutAppends(list[..k], list[k]);
      assert list == list[..k] + [list[k]];
    }
  }

  class LoRARegistry {
    const persists: bool
    var loaded: seq<AdapterRecord>
    var active: Option<string>
    var previous: Option<string>
    var file: Option<Registry>  // what the JSON file at persist_path holds, if it exists

    function View(): Registry
      reads this
    {
      Registry(loaded, active, previous)
    }

    /** The file, when there is one to keep, after the registry became `r`. */
    function Saved(r: Registry): Option<Registry>
      reads this
    {
      if persists then Some(r) else file
    }

    constructor (persists: bool, file: Option<Registry>)
      ensures this.persists == persists && this.file == file
      ensures View() == if persists then Restore(file) else EMPTY
    {
      this.persists := persists;
      this.file := file;
      var r := if persists then Restore(file) else EMPTY;
      loaded, active, previous := r.loaded, r.active, r.previous;
    }

    method Persist()
      modifies this`file
      ensures file == old(Saved(View()))
    {
      if persists {
        file := Some(Registry(loaded, active, previous));
      }
    }

    method RegisterAdapter(name: string, path: string, now: real)
      modifies this
      ensures View() == Register(old(View()), AdapterRecord(name, path, now))
      ensures file == old(Saved(Register(View(), AdapterRecord(name, path, now))))
    {
      loaded := Put(loaded, AdapterRecord(name, path, now));
      Persist();
    }

    /** False stands for the KeyError of an adapter that is not loaded. */
    method ActivateAdapter(name: string) returns (ok: bool)
      modifies this
      ensures ok <==> name in Names(old(loaded))
      ensures View() == if ok then Activate(old(View()), name) else old(View())
      ensures file == if ok then old(Saved(Activate(View(), name))) else old(file)
    {
      if name !in Names(loaded) {
        return false;
      }
      if active != Some(name) {
        previous := active;
      }
      active := Some(name);
      Persist();
      return true;
    }

    method DeactivateAdapter()
      modifies this
      ensures View() == Deactivate(old(View()))
      ensures file == old(Saved(Deactivate(View())))
    {
      if active.Some? {
        previous := active;
      }
      active := None;
      Persist();
    }

    method Remove(name: string)
      modifies this
      ensures View() == RemoveAdapter(old(View()), name)
      ensures file == old(Saved(RemoveAdapter(View(), name)))
    {
      loaded := Without(loaded, name);
      if active == Some(name) {
        active := None;
      }
      if previous == Some(name) {
        previous := None;
      }
      Persist();
    }
  }
}
