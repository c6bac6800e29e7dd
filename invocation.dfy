/**
 * Looking up plugin functions and running every plugin's `__init` in load order.
 */
module Invocation {
  import opened Errors
  import opened Engine
  import opened Linking

  const INIT_EXPORT := "__init"

  /** The plugin's id and its function `func` under signature `ty`. An unknown plugin and
      a plugin without an instance are two distinct errors; the engine's lookup decides
      the rest. */
  function FuncWithId(items: map<string, Plug>, plug: string, func: string, ty: FuncType): (r: Result<(nat, TypedFunc)>)
    ensures r == Err(PlugNotFound(plug, func)) <==> plug !in items
    ensures r == Err(PlugNotInstantiated(plug)) <==> plug in items && items[plug].instance.None?
    ensures r.Ok? <==> plug in items && items[plug].instance.Some? && GetTypedFunc(items[plug].instance.value, func, ty).Ok?
    ensures r.Ok? ==> r.value == (items[plug].id, TypedFunc(items[plug].instance.value, func, ty))
  {
    if plug in items then
      var p := items[plug];
      if p.instance.Some? then
        match GetTypedFunc(p.instance.value, func, ty)
        case Ok(f) => Ok((p.id, f))
        case Err(e) => Err(e)
      else Err(PlugNotInstantiated(plug))
    else Err(PlugNotFound(plug, func))
  }

  /** For a linked, coherent plugin the lookup succeeds exactly when its module exports a
      function of that name with that signature. */
  lemma FuncWithIdLinked(items: map<string, Plug>, plug: string, func: string, ty: FuncType)
    requires plug in items && Coherent(items[plug]) && items[plug].instance.Some?
    ensures FuncWithId(items, plug, func, ty).Ok? <==>
              FindExport(items[plug].wasm.exports, func) == Some(FuncExtern(ty))
  {
  }

  /** The plugin at position `j` of the load order has a `() -> ()` function `__init`
      that can be looked up. */
  predicate InitAt(items: map<string, Plug>, order: seq<string>, j: nat)
    requires j < |order|
  {
    FuncWithId(items, order[j], INIT_EXPORT, INIT_TYPE).Ok?
  }

  datatype InitState = InitState(currentId: nat, result: Result<()>)

  /** Running `__init` for the first `k` names of the load order: a plugin whose lookup
      fails is skipped; otherwise the current id becomes its id and the call runs; the
      positions in `failing` are the calls that trap, and the first trap stops the run. */
  function InitPrefix(items: map<string, Plug>, order: seq<string>, failing: set<nat>, start: nat, k: nat): (r: InitState)
    requires k <= |order|
  {
    if k == 0 then InitState(start, Ok(()))
    else
      var prev := InitPrefix(items, order, failing, start, k - 1);
      var f := FuncWithId(items, order[k - 1], INIT_EXPORT, INIT_TYPE);
      if prev.result.Err? || f.Err? then prev
      else InitState(f.value.0, if k - 1 in failing then Err(CallTrapped) else Ok(()))
  }

  function InitAll(items: map<string, Plug>, order: seq<string>, failing: set<nat>, start: nat): (r: InitState)
  {
    InitPrefix(items, order, failing, start, |order|)
  }

  /** Initialisation of the first `k` names succeeds exactly when no plugin among them
      with an `__init` traps in it. */
  lemma {:induction false} InitPrefixSucceeds(items: map<string, Plug>, order: seq<string>, failing: set<nat>, start: nat, k: nat)
    requires k <= |order|
    ensures InitPrefix(items, order, failing, start, k).result.Ok? <==>
              forall j :: 0 <= j < k && InitAt(items, order, j) ==> j !in failing
  {
    if k > 0 {
      InitPrefixSucceeds(items, order, failing, start, k - 1);
      if InitPrefix(items, order, failing, start, k - 1).result.Ok? {
        InitPrefixNext(items, order, failing, start, k - 1);
      }
    }
  }

  /** Position `j` of the load order is the first plugin with an `__init` that traps. */
  predicate FirstTrap(items: map<string, Plug>, order: seq<string>, failing: set<nat>, j: nat)
    requires j < |order|
  {
    InitAt(items, order, j) && j in failing &&
    forall i :: 0 <= i < j && InitAt(items, order, i) ==> i !in failing
  }

  /** A failed initialisation stopped at the first plugin with an `__init` that trapped,
      with the current id set to that plugin's id. */
  lemma {:induction false} InitPrefixTrap(items: map<string, Plug>, order: seq<string>, failing: set<nat>, start: nat, k: nat)
    requires k <= |order|
    ensures var s := InitPrefix(items, order, failing, start, k);
            s.result.Err? ==> (s.result == Err(CallTrapped) &&
              exists j :: 0 <= j < k && FirstTrap(items, order, failing, j) && s.currentId == items[order[j]].id)
  {
    if k > 0 {
      var prev := InitPrefix(items, order, failing, start, k - 1);
      if prev.result.Err? {
        InitPrefixTrap(items, order, failing, start, k - 1);
      } else if InitPrefix(items, order, failing, start, k).result.Err? {
        InitPrefixNext(items, order, failing, start, k - 1);
        InitPrefixSucceeds(items, order, failing, start, k - 1);
        assert FirstTrap(items, order, failing, k - 1);
      }
    }
  }

  /** Among the first `k` positions of the load order, `j` is the last with an `__init`. */
  predicate LastInit(items: map<string, Plug>, order: seq<string>, k: nat, j: nat)
    requires j < k <= |order|
  {
    InitAt(items, order, j) && forall i :: j < i < k ==> !InitAt(items, order, i)
  }

  /** After a successful initialisation the current id is that of the last plugin with an
      `__init`, or the starting id when there is none. */
  lemma {:induction false} InitPrefixLastId(items: map<string, Plug>, order: seq<string>, failing: set<nat>, start: nat, k: nat)
    requires k <= |order|
    ensures var s := InitPrefix(items, order, failing, start, k);
            s.result.Ok? ==>
              ((forall j :: 0 <= j < k ==> !InitAt(items, order, j)) && s.currentId == start) ||
              (exists j :: 0 <= j < k && LastInit(items, order, k, j) && s.currentId == items[order[j]].id)
  {
    if k > 0 {
      var prev := InitPrefix(items, order, failing, start, k - 1);
      if prev.result.Ok? {
        InitPrefixNext(items, order, failing, start, k - 1);
        if InitAt(items, order, k - 1) {
          assert LastInit(items, order, k, k - 1);
        } else {
          InitPrefixLastId(items, order, failing, start, k - 1);
          if j :| 0 <= j < k - 1 && LastInit(items, order, k - 1, j) && prev.currentId == items[order[j]].id {
            LastInitExtend(items, order, k, j);
          }
        }
      }
    }
  }

  /** A position without an `__init` does not change which one is last. */
  lemma LastInitExtend(items: map<string, Plug>, order: seq<string>, k: nat, j: nat)
    requires j < k - 1 && k <= |order|
    requires LastInit(items, order, k - 1, j) && !InitAt(items, order, k - 1)
    ensures LastInit(items, order, k, j)
  {
  }

  lemma InitAllOutcome(items: map<string, Plug>, order: seq<string>, failing: set<nat>, start: nat)
    ensures var s := InitAll(items, order, failing, start);
            s.result.Ok? <==> forall j :: 0 <= j < |order| && InitAt(items, order, j) ==> j !in failing
    ensures var s := InitAll(items, order, failing, start);
            s.result.Err? ==> (s.result == Err(CallTrapped) &&
              exists j :: 0 <= j < |order| && FirstTrap(items, order, failing, j) && s.currentId == items[order[j]].id)
    ensures var s := InitAll(items, order, failing, start);
            s.result.Ok? ==>
              ((forall j :: 0 <= j < |order| ==> !InitAt(items, order, j)) && s.currentId == start) ||
              (exists j :: 0 <= j < |order| && LastInit(items, order, |order|, j) && s.currentId == items[order[j]].id)
  {
    InitPrefixSucceeds(items, order, failing, start, |order|);
    InitPrefixTrap(items, order, failing, start, |order|);
    InitPrefixLastId(items, order, failing, start, |order|);
  }

  lemma {:induction false} InitPrefixAfterError(items: map<string, Plug>, order: seq<string>, failing: set<nat>, start: nat, k: nat, m: nat)
    requires k <= m <= |order|
    requires InitPrefix(items, order, failing, start, k).result.Err?
    ensures InitPrefix(items, order, failing, start, m) == InitPrefix(items, order, failing, start, k)
  {
    if m > k {
      InitPrefixAfterError(items, order, failing, start, k, m - 1);
    }
  }

  /** One more name of the load order, while no call has trapped. */
  lemma InitPrefixNext(items: map<string, Plug>, order: seq<string>, failing: set<nat>, start: nat, k: nat)
    requires k < |order|
    requires InitPrefix(items, order, failing, start, k).result.Ok?
    ensures var f := FuncWithId(items, order[k], INIT_EXPORT, INIT_TYPE);
            InitPrefix(items, order, failing, start, k + 1) ==
              if f.Ok? then InitState(f.value.0, if k in failing then Err(CallTrapped) else Ok(()))
              else InitPrefix(items, order, failing, start, k)
  {
  }
}
