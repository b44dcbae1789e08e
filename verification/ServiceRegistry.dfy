/** Services, the names they publish and the order they were spawned in. */
module ServiceRegistry {
  import opened Collections

  datatype Registry = Registry(
    services: set<string>,               // running services
    published: map<string, string>,      // name -> owner
    owned: map<string, set<string>>,     // owner -> names
    order: seq<string>,                  // spawn order
    actors: set<string>,                 // services that have an actor handle
    exits: seq<string>)                  // services whose on_exit has been called, in call order

  const EMPTY := Registry({}, map[], map[], [], {}, [])

  predicate NameChar(c: char) {
    'a' <= c <= 'z' || 'A' <= c <= 'Z' || '0' <= c <= '9' || c == '_' || c == '.' || c == '-'
  }

  predicate ValidName(name: string) {
    0 < |name| <= 64 && !("shield." <= name) && forall i :: 0 <= i < |name| ==> NameChar(name[i])
  }

  function NamesOf(owned: map<string, set<string>>, owner: string): set<string> {
    if owner in owned then owned[owner] else {}
  }

  // ---------------------------------------------------------------------
  // Steps
  // ---------------------------------------------------------------------

  /** A service registers or unregisters one of its names. */
  datatype NameOp = Register(name: string) | Unregister(name: string)

  /** Whether register_name or unregister_name succeeds. */
  predicate Accepts(r: Registry, owner: string, op: NameOp) {
    && owner != ""
    && match op
       case Register(name) => ValidName(name) && (name in r.published ==> r.published[name] == owner)
       case Unregister(name) => name in r.published && r.published[name] == owner
  }

  function Rename(r: Registry, owner: string, op: NameOp): Registry {
    if !Accepts(r, owner, op) then r
    else match op
      case Register(name) =>
        r.(published := r.published[name := owner], owned := r.owned[owner := NamesOf(r.owned, owner) + {name}])
      case Unregister(name) =>
        r.(published := r.published - {name},
           owned := if owner in r.owned then r.owned[owner := r.owned[owner] - {name}] else r.owned)
  }

  function RenameAll(r: Registry, owner: string, ops: seq<NameOp>): Registry {
    if ops == [] then r else Rename(RenameAll(r, owner, ops[..|ops| - 1]), owner, ops[|ops| - 1])
  }

  function DropNames(r: Registry, owner: string): Registry {
    r.(published := r.published - NamesOf(r.owned, owner), owned := r.owned - {owner})
  }

  /** A spawn creates the actor before on_init runs. */
  function AddActor(r: Registry, id: string): Registry {
    r.(actors := r.actors + {id})
  }

  /** on_init returned an error in time: the actor handle and the names registered so far go. */
  function InitFailed(r: Registry, id: string): Registry {
    DropNames(r.(actors := r.actors - {id}), id)
  }

  /** on_init succeeded: publish the service, unless the name has been taken meanwhile. */
  function Commit(r: Registry, id: string): Registry {
    if id in r.services || id in r.published then r.(actors := r.actors - {id})
    else r.(services := r.services + {id},
            published := r.published[id := id],
            owned := r.owned[id := NamesOf(r.owned, id) + {id}],
            order := r.order + [id])
  }

  function Removed<T(==)>(s: seq<T>, x: T): seq<T> {
    if s == [] then [] else Removed(s[..|s| - 1], x) + (if s[|s| - 1] == x then [] else [s[|s| - 1]])
  }

  /** The last critical section of exit: the service is taken out of every table. */
  function Unlist(r: Registry, id: string): Registry {
    var d := DropNames(r, id);
    d.(services := d.services - {id}, order := Removed(d.order, id), actors := d.actors - {id})
  }

  /** on_exit runs, with whatever names it touches, and then the service is taken out everywhere. */
  function Exit(r: Registry, id: string, hook: seq<NameOp>): Registry {
    if id !in r.services then r else Unlist(RenameAll(r, id, hook), id).(exits := r.exits + [id])
  }

  // ---------------------------------------------------------------------
  // What every step keeps
  // ---------------------------------------------------------------------

  /** The two name tables are inverse to each other. */
  ghost predicate InverseIndexes(r: Registry) {
    && (forall n :: n in r.published ==> n in NamesOf(r.owned, r.published[n]))
    && (forall o, n :: n in NamesOf(r.owned, o) ==> n in r.published && r.published[n] == o)
  }

  ghost predicate OrderIsServices(r: Registry) {
    Distinct(r.order) && forall id :: id in r.order <==> id in r.services
  }

  ghost predicate Inv(r: Registry) {
    InverseIndexes(r) && OrderIsServices(r)
  }

  predicate Owns(r: Registry, owner: string, name: string) {
    name in r.published && r.published[name] == owner
  }

  /** The names of all owners outside `gone` are the same in both. */
  ghost predicate OthersKept(r: Registry, r': Registry, gone: set<string>) {
    forall o, n :: o !in gone ==> (Owns(r, o, n) <==> Owns(r', o, n))
  }

  ghost predicate NoNamesOf(r: Registry, gone: set<string>) {
    forall o, n :: o in gone ==> !Owns(r, o, n)
  }

  lemma {:induction false} RemovedSpec<T>(s: seq<T>, x: T)
    ensures forall y :: y in Removed(s, x) <==> y in s && y != x
    ensures Distinct(s) ==> Distinct(Removed(s, x))
  {
    if s != [] {
      var last := |s| - 1;
      RemovedSpec(s[..last], x);
      assert s == s[..last] + [s[last]];
      if Distinct(s) && s[last] != x {
        assert s[last] !in s[..last];
      }
    }
  }

  lemma RenameKeepsInv(r: Registry, owner: string, op: NameOp)
    requires Inv(r)
    ensures Inv(Rename(r, owner, op)) && OthersKept(r, Rename(r, owner, op), {owner})
    ensures Rename(r, owner, op).(published := r.published, owned := r.owned) == r
  {
    if Accepts(r, owner, op) {
      var q := Rename(r, owner, op);
      assert forall o :: o != owner ==> NamesOf(q.owned, o) == NamesOf(r.owned, o);
      assert NamesOf(q.owned, owner) == match op
        case Register(name) => NamesOf(r.owned, owner) + {name}
        case Unregister(name) => NamesOf(r.owned, owner) - {name};
    }
  }

  lemma {:induction false} RenameAllKeepsInv(r: Registry, owner: string, ops: seq<NameOp>)
    requires Inv(r)
    ensures Inv(RenameAll(r, owner, ops)) && OthersKept(r, RenameAll(r, owner, ops), {owner})
    ensures RenameAll(r, owner, ops).(published := r.published, owned := r.owned) == r
  {
    if ops != [] {
      RenameAllKeepsInv(r, owner, ops[..|ops| - 1]);
      RenameKeepsInv(RenameAll(r, owner, ops[..|ops| - 1]), owner, ops[|ops| - 1]);
    }
  }

  lemma DropNamesKeepsInv(r: Registry, owner: string)
    requires Inv(r)
    ensures Inv(DropNames(r, owner)) && OthersKept(r, DropNames(r, owner), {owner})
    ensures NoNamesOf(DropNames(r, owner), {owner})
  {
    var d := DropNames(r, owner);
    assert forall o :: NamesOf(d.owned, o) == if o == owner then {} else NamesOf(r.owned, o);
  }

  lemma CommitKeepsInv(r: Registry, id: string)
    requires Inv(r)
    ensures Inv(Commit(r, id)) && OthersKept(r, Commit(r, id), {id})
  {
    if id !in r.services && id !in r.published {
      var c := Commit(r, id);
      assert forall o :: NamesOf(c.owned, o) == if o == id then NamesOf(r.owned, id) + {id} else NamesOf(r.owned, o);
      assert id !in r.order;
    }
  }

  lemma UnlistKeepsInv(r: Registry, id: string)
    requires Inv(r)
    ensures Inv(Unlist(r, id)) && OthersKept(r, Unlist(r, id), {id}) && NoNamesOf(Unlist(r, id), {id})
  {
    DropNamesKeepsInv(r, id);
    RemovedSpec(r.order, id);
  }

  lemma ExitKeepsInv(r: Registry, id: string, hook: seq<NameOp>)
    requires Inv(r)
    ensures Inv(Exit(r, id, hook)) && OthersKept(r, Exit(r, id, hook), {id})
    ensures id in r.services ==> NoNamesOf(Exit(r, id, hook), {id})
    ensures Exit(r, id, hook).services == r.services - {id}
    ensures id in r.services ==> Exit(r, id, hook).actors == r.actors - {id}
  {
    RenameAllKeepsInv(r, id, hook);
    UnlistKeepsInv(RenameAll(r, id, hook), id);
  }

  /** A name that another service owns stays with it, whatever this service registers. */
  lemma NeverTakesOver(r: Registry, owner: string, op: NameOp, name: string)
    requires Inv(r) && name in r.published && r.published[name] != owner
    ensures name in Rename(r, owner, op).published && Rename(r, owner, op).published[name] == r.published[name]
    ensures op.name == name ==> !Accepts(r, owner, op)
  {
    RenameKeepsInv(r, owner, op);
  }

  /** Unregistering right after a first registration restores the published names. */
  lemma UnregisterUndoesRegister(r: Registry, owner: string, name: string)
    requires Inv(r) && Accepts(r, owner, Register(name)) && name !in r.published
    ensures Rename(Rename(r, owner, Register(name)), owner, Unregister(name)).published == r.published
    ensures NamesOf(Rename(Rename(r, owner, Register(name)), owner, Unregister(name)).owned, owner) ==
            NamesOf(r.owned, owner)
  {
    assert name !in NamesOf(r.owned, owner);
  }

  // ---------------------------------------------------------------------
  // Shutdown
  // ---------------------------------------------------------------------

  function Hook(hooks: map<string, seq<NameOp>>, id: string): seq<NameOp> {
    if id in hooks then hooks[id] else []
  }

  /** Exit the services of `ids` from the last to the first. */
  function ExitBackwards(r: Registry, ids: seq<string>, hooks: map<string, seq<NameOp>>): Registry
    decreases |ids|
  {
    if ids == [] then r
    else
      var last := ids[|ids| - 1];
      ExitBackwards(Exit(r, last, Hook(hooks, last)), ids[..|ids| - 1], hooks)
  }

  lemma RemovedLast<T>(s: seq<T>)
    requires Distinct(s) && s != []
    ensures Removed(s, s[|s| - 1]) == s[..|s| - 1]
  {
    RemovedAbsent(s[..|s| - 1], s[|s| - 1]);
  }

  lemma {:induction false} RemovedAbsent<T>(s: seq<T>, x: T)
    requires x !in s
    ensures Removed(s, x) == s
  {
    if s != [] {
      RemovedAbsent(s[..|s| - 1], x);
    }
  }

  /** on_exit has been called once for every service of r, last spawned first. */
  ghost predicate ExitedBackwards(r: Registry, q: Registry) {
    && |q.exits| == |r.exits| + |r.order| && r.exits <= q.exits
    && forall i :: 0 <= i < |r.order| ==> r.order[i] == q.exits[|q.exits| - 1 - i]
  }

  /** The outcome of a shutdown from r, seen from the registry. */
  ghost predicate ShutDown(r: Registry, q: Registry) {
    && Inv(q) && q.services == {} && q.order == []
    && ExitedBackwards(r, q)
    && q.actors == r.actors - r.services
    && OthersKept(r, q, r.services) && NoNamesOf(q, r.services)
  }

  /**
   * Sequential shutdown, whatever names the on_exit hooks touch: on_exit runs once per service in
   * reverse spawn order, nothing is left running, the names of the stopped services are gone and the
   * names of all other owners are as before.
   */
  lemma {:induction false} ShutdownSpec(r: Registry, hooks: map<string, seq<NameOp>>)
    requires Inv(r)
    ensures ShutDown(r, ExitBackwards(r, r.order, hooks))
    decreases |r.order|
  {
    if r.order == [] {
      assert r.services == {};
    } else {
      var id := r.order[|r.order| - 1];
      assert id in r.order;
      var e := Exit(r, id, Hook(hooks, id));
      LastExit(r, id, Hook(hooks, id));
      ShutdownSpec(e, hooks);
      ShutdownStep(r, e, ExitBackwards(e, e.order, hooks), id);
    }
  }

  lemma LastExit(r: Registry, id: string, hook: seq<NameOp>)
    requires Inv(r) && r.order != [] && id == r.order[|r.order| - 1]
    ensures Inv(Exit(r, id, hook)) && OthersKept(r, Exit(r, id, hook), {id}) && NoNamesOf(Exit(r, id, hook), {id})
    ensures Exit(r, id, hook).order == r.order[..|r.order| - 1] && Exit(r, id, hook).exits == r.exits + [id]
    ensures Exit(r, id, hook).services == r.services - {id} && Exit(r, id, hook).actors == r.actors - {id}
    ensures id in r.services
  {
    assert id in r.order;
    ExitKeepsInv(r, id, hook);
    RenameAllKeepsInv(r, id, hook);
    RemovedLast(r.order);
  }

  lemma ExitedOneMore(r: Registry, e: Registry, q: Registry)
    requires r.order != [] && e.order == r.order[..|r.order| - 1] && e.exits == r.exits + [r.order[|r.order| - 1]]
    requires ExitedBackwards(e, q)
    ensures ExitedBackwards(r, q)
  {
    forall i | 0 <= i < |r.order| ensures r.order[i] == q.exits[|q.exits| - 1 - i] {
      if i < |e.order| {
        assert r.order[i] == e.order[i];
      } else {
        assert q.exits[|r.exits|] == e.exits[|r.exits|];
      }
    }
  }

  lemma ShutdownStep(r: Registry, e: Registry, q: Registry, id: string)
    requires Inv(r) && r.order != [] && id == r.order[|r.order| - 1] && id in r.services
    requires e.services == r.services - {id} && e.actors == r.actors - {id}
    requires e.order == r.order[..|r.order| - 1] && e.exits == r.exits + [id]
    requires OthersKept(r, e, {id}) && NoNamesOf(e, {id}) && ShutDown(e, q)
    ensures ShutDown(r, q)
  {
    ExitedOneMore(r, e, q);
    forall o, n | o in r.services ensures !Owns(q, o, n) {
      if o == id {
        assert Owns(e, o, n) <==> Owns(q, o, n);
      }
    }
    forall o, n | o !in r.services ensures Owns(r, o, n) <==> Owns(q, o, n) {
      assert Owns(e, o, n) <==> Owns(q, o, n);
    }
  }
}
