/**
 * Linking: each plugin, in load order, resolves its required imports against the exports
 * of its declared dependencies, in declaration order, and is then instantiated.
 * The functions here follow the source's loops step by step; the lemmas give the
 * closed form of what they compute.
 */
module Linking {
  import opened Errors
  import opened Engine
  import opened Sequences

  /** A registered plugin: its id, compiled module, instance once linked, and metadata. */
  datatype Plug = Plug(id: nat, wasm: WasmModule, instance: Option<Instance>,
                       deps: seq<string>, exports: seq<string>, imports: seq<string>)

  /** An import of the plugin being linked, bound to the same-named export of `dep`. */
  datatype Binding = Binding(name: string, dep: string)

  /** The imports still to resolve and the bindings collected so far. */
  datatype Narrowed = Narrowed(remaining: seq<string>, bound: seq<Binding>)

  /** A record's export list is its module's, and its instance, if any, is of its module. */
  ghost predicate Coherent(p: Plug)
  {
    p.exports == ExportNames(p.wasm) && (p.instance.Some? ==> p.instance.value == Instance(p.wasm))
  }

  ghost predicate CoherentItems(items: map<string, Plug>)
  {
    forall n :: n in items ==> Coherent(items[n])
  }

  /** The names of `s` not in `xs`, in order. */
  function Keep(s: seq<string>, xs: seq<string>): (r: seq<string>)
    ensures forall x :: x in r <==> x in s && x !in xs
  {
    if s == [] then []
    else
      var init := s[..|s| - 1];
      assert s == init + [s[|s| - 1]];
      if s[|s| - 1] in xs then Keep(init, xs) else Keep(init, xs) + [s[|s| - 1]]
  }

  /** The names of `s` in `xs`, in order. */
  function Take(s: seq<string>, xs: seq<string>): (r: seq<string>)
    ensures forall x :: x in r <==> x in s && x in xs
  {
    if s == [] then []
    else
      var init := s[..|s| - 1];
      assert s == init + [s[|s| - 1]];
      if s[|s| - 1] in xs then Take(init, xs) + [s[|s| - 1]] else Take(init, xs)
  }

  /** Every name bound to `dep`. */
  function BindAll(names: seq<string>, dep: string): (r: seq<Binding>)
    ensures |r| == |names|
    ensures forall k :: 0 <= k < |r| ==> r[k] == Binding(names[k], dep)
  {
    seq(|names|, k requires 0 <= k < |names| => Binding(names[k], dep))
  }

  /** One declared dependency narrows the remaining imports of `plug`: an import the
      dependency exports is bound to it (failing if the dependency has no instance yet, or
      the instance lacks the export), any other import stays for later dependencies. */
  function NarrowThrough(plug: string, depName: string, dep: Plug, imports: seq<string>): (r: Result<Narrowed>)
  {
    if imports == [] then Ok(Narrowed([], []))
    else match NarrowThrough(plug, depName, dep, imports[..|imports| - 1])
      case Err(e) => Err(e)
      case Ok(n) =>
        var imp := imports[|imports| - 1];
        if imp in dep.exports then
          if dep.instance.None? then Err(DependencyNotInstantiated(depName, plug))
          else if GetExport(dep.instance.value, imp).None? then Err(DependencyExportMissing(depName, imp, plug))
          else Ok(Narrowed(n.remaining, n.bound + [Binding(imp, depName)]))
        else Ok(Narrowed(n.remaining + [imp], n.bound))
  }

  /** For a coherent dependency: the not-instantiated error fires exactly when some
      remaining import is among its exports; otherwise the matching imports are bound to
      it, in order, and the others remain, in order. */
  lemma {:induction false} NarrowThroughClosedForm(plug: string, depName: string, dep: Plug, imports: seq<string>)
    requires Coherent(dep)
    ensures NarrowThrough(plug, depName, dep, imports) ==
              if dep.instance.None? && Take(imports, dep.exports) != [] then Err(DependencyNotInstantiated(depName, plug))
              else Ok(Narrowed(Keep(imports, dep.exports), BindAll(Take(imports, dep.exports), depName)))
  {
    if imports != [] {
      var init := imports[..|imports| - 1];
      var imp := imports[|imports| - 1];
      NarrowThroughClosedForm(plug, depName, dep, init);
      if imp in dep.exports {
        if dep.instance.Some? {
          assert GetExport(dep.instance.value, imp).Some?;
          assert BindAll(Take(imports, dep.exports), depName) == BindAll(Take(init, dep.exports), depName) + [Binding(imp, depName)];
        }
      }
    }
  }

  /** Once a prefix of the imports fails, the whole list fails with the same error. */
  lemma {:induction false} NarrowThroughErrStable(plug: string, depName: string, dep: Plug, imports: seq<string>, i: nat)
    requires i <= |imports|
    requires NarrowThrough(plug, depName, dep, imports[..i]).Err?
    ensures NarrowThrough(plug, depName, dep, imports) == NarrowThrough(plug, depName, dep, imports[..i])
  {
    if i < |imports| {
      var init := imports[..|imports| - 1];
      assert init[..i] == imports[..i];
      NarrowThroughErrStable(plug, depName, dep, init, i);
    } else {
      assert imports[..i] == imports;
    }
  }

  /** The exports of a registered plugin; an unregistered name exports nothing. */
  function ExportsOf(items: map<string, Plug>, d: string): (r: seq<string>)
  {
    if d in items then items[d].exports else []
  }

  /** The first declared dependency that exports `name`. */
  function FirstProvider(items: map<string, Plug>, deps: seq<string>, name: string): (r: Option<nat>)
    ensures r.Some? ==> r.value < |deps| && name in ExportsOf(items, deps[r.value])
    ensures r.Some? ==> forall j :: 0 <= j < r.value ==> name !in ExportsOf(items, deps[j])
    ensures r.None? <==> forall j :: 0 <= j < |deps| ==> name !in ExportsOf(items, deps[j])
  {
    if deps == [] then None
    else
      var init := deps[..|deps| - 1];
      assert forall j :: 0 <= j < |init| ==> init[j] == deps[j];
      match FirstProvider(items, init, name)
      case Some(j) => Some(j)
      case None => if name in ExportsOf(items, deps[|deps| - 1]) then Some(|deps| - 1) else None
  }

  lemma FirstProviderSnoc(items: map<string, Plug>, deps: seq<string>, d: string, name: string)
    ensures FirstProvider(items, deps + [d], name) ==
              if FirstProvider(items, deps, name).Some? then FirstProvider(items, deps, name)
              else if name in ExportsOf(items, d) then Some(|deps|) else None
  {
    assert (deps + [d])[..|deps|] == deps;
  }

  /** The imports no declared dependency exports, in order. */
  function Unprovided(items: map<string, Plug>, deps: seq<string>, imports: seq<string>): (r: seq<string>)
    ensures forall x :: x in r <==> x in imports && FirstProvider(items, deps, x).None?
  {
    if imports == [] then []
    else
      var init := imports[..|imports| - 1];
      var x := imports[|imports| - 1];
      assert imports == init + [x];
      if FirstProvider(items, deps, x).None? then Unprovided(items, deps, init) + [x]
      else Unprovided(items, deps, init)
  }

  lemma {:induction false} UnprovidedSnoc(items: map<string, Plug>, deps: seq<string>, d: string, imports: seq<string>)
    ensures Unprovided(items, deps + [d], imports) == Keep(Unprovided(items, deps, imports), ExportsOf(items, d))
  {
    if imports != [] {
      var init := imports[..|imports| - 1];
      var x := imports[|imports| - 1];
      UnprovidedSnoc(items, deps, d, init);
      FirstProviderSnoc(items, deps, d, x);
      var u := Unprovided(items, deps, imports);
      if FirstProvider(items, deps, x).None? {
        assert u[..|u| - 1] == Unprovided(items, deps, init);
      }
    }
  }

  /** The j-th declared dependency is where resolution fails: it is not registered, or
      it has no instance while some import not exported by an earlier dependency is
      among its exports. */
  ghost predicate Fault(items: map<string, Plug>, deps: seq<string>, imports: seq<string>, j: nat)
    requires j < |deps|
  {
    deps[j] !in items ||
    (items[deps[j]].instance.None? && Take(Unprovided(items, deps[..j], imports), items[deps[j]].exports) != [])
  }

  /** The first faulty dependency. */
  ghost function FirstFault(items: map<string, Plug>, deps: seq<string>, imports: seq<string>): (r: Option<nat>)
    ensures r.Some? ==> r.value < |deps| && Fault(items, deps, imports, r.value)
    ensures r.Some? ==> forall j :: 0 <= j < r.value ==> !Fault(items, deps, imports, j)
    ensures r.None? <==> forall j :: 0 <= j < |deps| ==> !Fault(items, deps, imports, j)
  {
    if deps == [] then None
    else
      var init := deps[..|deps| - 1];
      assert forall j :: 0 <= j < |init| ==> init[..j] == deps[..j] && init[j] == deps[j];
      assert forall j :: 0 <= j < |init| ==> (Fault(items, init, imports, j) <==> Fault(items, deps, imports, j));
      match FirstFault(items, init, imports)
      case Some(j) => Some(j)
      case None => if Fault(items, deps, imports, |deps| - 1) then Some(|deps| - 1) else None
  }

  /** The error a faulty dependency raises. */
  function FaultError(items: map<string, Plug>, plug: string, d: string): (r: Error)
  {
    if d !in items then InvalidDependency(d) else DependencyNotInstantiated(d, plug)
  }

  /** The bindings, dependency by dependency: each takes the imports that no earlier
      dependency exports and that it exports. */
  ghost function BoundBy(items: map<string, Plug>, deps: seq<string>, imports: seq<string>): (r: seq<Binding>)
  {
    if deps == [] then []
    else
      var init := deps[..|deps| - 1];
      var d := deps[|deps| - 1];
      BoundBy(items, init, imports) + BindAll(Take(Unprovided(items, init, imports), ExportsOf(items, d)), d)
  }

  /** Each binding goes to the first declared dependency that exports the name, and every
      import that some declared dependency exports is bound that way. */
  lemma {:induction false} BoundByFirstProvider(items: map<string, Plug>, deps: seq<string>, imports: seq<string>)
    ensures forall b :: b in BoundBy(items, deps, imports) ==>
              b.name in imports && FirstProvider(items, deps, b.name).Some? &&
              deps[FirstProvider(items, deps, b.name).value] == b.dep
    ensures forall i :: i in imports && FirstProvider(items, deps, i).Some? ==>
              Binding(i, deps[FirstProvider(items, deps, i).value]) in BoundBy(items, deps, imports)
  {
    if deps != [] {
      var init := deps[..|deps| - 1];
      var d := deps[|deps| - 1];
      assert deps == init + [d];
      BoundByFirstProvider(items, init, imports);
      var added := BindAll(Take(Unprovided(items, init, imports), ExportsOf(items, d)), d);
      forall b | b in BoundBy(items, deps, imports)
        ensures b.name in imports && FirstProvider(items, deps, b.name).Some? &&
                deps[FirstProvider(items, deps, b.name).value] == b.dep
      {
        FirstProviderSnoc(items, init, d, b.name);
        if b !in BoundBy(items, init, imports) {
          assert b in added;
          var k :| 0 <= k < |added| && added[k] == b;
          assert b.name in Take(Unprovided(items, init, imports), ExportsOf(items, d));
        }
      }
      forall i | i in imports && FirstProvider(items, deps, i).Some?
        ensures Binding(i, deps[FirstProvider(items, deps, i).value]) in BoundBy(items, deps, imports)
      {
        FirstProviderSnoc(items, init, d, i);
        if FirstProvider(items, init, i).None? {
          var t := Take(Unprovided(items, init, imports), ExportsOf(items, d));
          assert i in t;
          var k :| 0 <= k < |t| && t[k] == i;
          assert added[k] == Binding(i, d);
        }
      }
    }
  }

  /** The source's loop over declared dependencies, in order: an unregistered dependency
      fails, a registered one narrows the remaining imports. */
  function ResolveDeps(items: map<string, Plug>, plug: string, deps: seq<string>, imports: seq<string>): (r: Result<Narrowed>)
  {
    if deps == [] then Ok(Narrowed(imports, []))
    else match ResolveDeps(items, plug, deps[..|deps| - 1], imports)
      case Err(e) => Err(e)
      case Ok(n) =>
        var d := deps[|deps| - 1];
        if d !in items then Err(InvalidDependency(d))
        else match NarrowThrough(plug, d, items[d], n.remaining)
          case Err(e) => Err(e)
          case Ok(m) => Ok(Narrowed(m.remaining, n.bound + m.bound))
  }

  /** Once a prefix of the dependencies fails, all of them fail with the same error. */
  lemma {:induction false} ResolveDepsErrStable(items: map<string, Plug>, plug: string, deps: seq<string>, imports: seq<string>, j: nat)
    requires j <= |deps|
    requires ResolveDeps(items, plug, deps[..j], imports).Err?
    ensures ResolveDeps(items, plug, deps, imports) == ResolveDeps(items, plug, deps[..j], imports)
  {
    if j < |deps| {
      var init := deps[..|deps| - 1];
      assert init[..j] == deps[..j];
      ResolveDepsErrStable(items, plug, init, imports, j);
    } else {
      assert deps[..j] == deps;
    }
  }

  /** Closed form of dependency resolution over coherent records: the first faulty
      dependency decides the error; without one, the remaining imports are exactly those
      no dependency exports and the bindings are `BoundBy`. */
  lemma {:induction false} ResolveDepsClosedForm(items: map<string, Plug>, plug: string, deps: seq<string>, imports: seq<string>)
    requires CoherentItems(items)
    ensures ResolveDeps(items, plug, deps, imports) ==
              match FirstFault(items, deps, imports)
              case Some(j) => Err(FaultError(items, plug, deps[j]))
              case None => Ok(Narrowed(Unprovided(items, deps, imports), BoundBy(items, deps, imports)))
  {
    if deps == [] {
      assert Unprovided(items, deps, imports) == imports by { UnprovidedNone(items, imports); }
    } else {
      var init := deps[..|deps| - 1];
      var d := deps[|deps| - 1];
      assert deps == init + [d];
      assert deps[..|deps| - 1] == init;
      ResolveDepsClosedForm(items, plug, init, imports);
      if FirstFault(items, init, imports).None? {
        var u := Unprovided(items, init, imports);
        if d in items {
          NarrowThroughClosedForm(plug, d, items[d], u);
          UnprovidedSnoc(items, init, d, imports);
        }
      }
    }
  }

  /** Without dependencies nothing is provided. */
  lemma {:induction false} UnprovidedNone(items: map<string, Plug>, imports: seq<string>)
    ensures Unprovided(items, [], imports) == imports
  {
    if imports != [] {
      UnprovidedNone(items, imports[..|imports| - 1]);
      assert imports == imports[..|imports| - 1] + [imports[|imports| - 1]];
    }
  }

  /** The source's resolution of one plugin: dependencies are consulted only when the
      plugin has required imports; imports left over are reported. */
  function ResolvePlug(items: map<string, Plug>, name: string, p: Plug): (r: Result<seq<Binding>>)
  {
    var n := if |p.imports| > 0 then ResolveDeps(items, name, p.deps, p.imports) else Ok(Narrowed(p.imports, []));
    match n
    case Err(e) => Err(e)
    case Ok(nw) => if |nw.remaining| > 0 then Err(UnresolvedImports(name, nw.remaining)) else Ok(nw.bound)
  }

  /** Closed form of resolving one plugin over coherent records. */
  lemma ResolvePlugOutcome(items: map<string, Plug>, name: string, p: Plug)
    requires CoherentItems(items)
    ensures p.imports == [] ==> ResolvePlug(items, name, p) == Ok([])
    ensures p.imports != [] ==> (ResolvePlug(items, name, p) ==
              match FirstFault(items, p.deps, p.imports)
              case Some(j) => Err(FaultError(items, name, p.deps[j]))
              case None =>
                if Unprovided(items, p.deps, p.imports) != [] then Err(UnresolvedImports(name, Unprovided(items, p.deps, p.imports)))
                else Ok(BoundBy(items, p.deps, p.imports)))
  {
    ResolveDepsClosedForm(items, name, p.deps, p.imports);
  }

  /** A plugin that resolves binds every required import, each to the first declared
      dependency that exports it, and binds nothing else. */
  lemma ResolvePlugBindings(items: map<string, Plug>, name: string, p: Plug)
    requires CoherentItems(items)
    requires ResolvePlug(items, name, p).Ok?
    ensures forall b :: b in ResolvePlug(items, name, p).value ==>
              b.name in p.imports && FirstProvider(items, p.deps, b.name).Some? &&
              p.deps[FirstProvider(items, p.deps, b.name).value] == b.dep
    ensures forall i :: i in p.imports ==>
              FirstProvider(items, p.deps, i).Some? &&
              Binding(i, p.deps[FirstProvider(items, p.deps, i).value]) in ResolvePlug(items, name, p).value
  {
    ResolvePlugOutcome(items, name, p);
    if p.imports != [] {
      BoundByFirstProvider(items, p.deps, p.imports);
    }
  }

  /** A resolution error is always one of the three linking errors, never a missing
      export of an instantiated dependency. */
  lemma ResolvePlugErrors(items: map<string, Plug>, name: string, p: Plug)
    requires CoherentItems(items)
    requires ResolvePlug(items, name, p).Err?
    ensures var e := ResolvePlug(items, name, p).error;
            (e.InvalidDependency? && e.dep in p.deps && e.dep !in items) ||
            (e.DependencyNotInstantiated? && e.plug == name && e.dep in p.deps && e.dep in items && items[e.dep].instance.None?) ||
            (e.UnresolvedImports? && e.plug == name && e.imports == Unprovided(items, p.deps, p.imports) && e.imports != [])
  {
    ResolvePlugOutcome(items, name, p);
  }

  /** A plugin record once linked. */
  function Linked(p: Plug): (q: Plug)
    ensures Coherent(p) ==> Coherent(q)
    ensures q.instance.Some? && q.id == p.id && q.wasm == p.wasm
    ensures q.deps == p.deps && q.exports == p.exports && q.imports == p.imports
  {
    p.(instance := Some(Instance(p.wasm)))
  }

  datatype LinkOutcome = LinkOutcome(items: map<string, Plug>, result: Result<()>)

  ghost predicate Covers(items: map<string, Plug>, order: seq<string>)
  {
    forall k :: 0 <= k < |order| ==> order[k] in items
  }

  /** Linking one plugin: on success its record gets an instance; on failure nothing changes. */
  function LinkStep(items: map<string, Plug>, name: string): (r: LinkOutcome)
    requires name in items
    ensures r.items.Keys == items.Keys
  {
    match ResolvePlug(items, name, items[name])
    case Err(e) => LinkOutcome(items, Err(e))
    case Ok(_) => LinkOutcome(items[name := Linked(items[name])], Ok(()))
  }

  /** Linking the first `k` names of the load order, stopping at the first failure. */
  function LinkPrefix(items: map<string, Plug>, order: seq<string>, k: nat): (r: LinkOutcome)
    requires Covers(items, order) && k <= |order|
    ensures r.items.Keys == items.Keys
  {
    if k == 0 then LinkOutcome(items, Ok(()))
    else
      var prev := LinkPrefix(items, order, k - 1);
      if prev.result.Err? then prev else LinkStep(prev.items, order[k - 1])
  }

  function LinkAll(items: map<string, Plug>, order: seq<string>): (r: LinkOutcome)
    requires Covers(items, order)
  {
    LinkPrefix(items, order, |order|)
  }

  /** After linking the first `k` names: each plugin named there is linked, every other
      record is as it was. */
  ghost predicate LinkedThrough(items: map<string, Plug>, after: map<string, Plug>, order: seq<string>, k: nat)
    requires k <= |order|
  {
    after.Keys == items.Keys &&
    forall n :: n in items ==> after[n] == (if n in order[..k] then Linked(items[n]) else items[n])
  }

  /** Linking keeps every record coherent. */
  lemma {:induction false} LinkPrefixCoherent(items: map<string, Plug>, order: seq<string>, k: nat)
    requires Covers(items, order) && CoherentItems(items) && k <= |order|
    ensures CoherentItems(LinkPrefix(items, order, k).items)
  {
    if k > 0 {
      var prev := LinkPrefix(items, order, k - 1);
      var name := order[k - 1];
      assert CoherentItems(prev.items) by {
        LinkPrefixCoherent(items, order, k - 1);
      }
      LinkPrefixItems(items, order, k);
      if prev.result.Ok? && ResolvePlug(prev.items, name, prev.items[name]).Ok? {
        var after := prev.items[name := Linked(prev.items[name])];
        forall n | n in after ensures Coherent(after[n]) {
          if n != name { assert after[n] == prev.items[n]; }
        }
      }
    }
  }

  /** The records after linking one more name: that plugin is linked when everything
      before it linked and it resolves; otherwise the records stay as they were. */
  lemma LinkPrefixItems(items: map<string, Plug>, order: seq<string>, k: nat)
    requires Covers(items, order) && 0 < k <= |order|
    ensures var prev := LinkPrefix(items, order, k - 1);
            var name := order[k - 1];
            LinkPrefix(items, order, k).items ==
              if prev.result.Ok? && ResolvePlug(prev.items, name, prev.items[name]).Ok?
              then prev.items[name := Linked(prev.items[name])]
              else prev.items
  {
  }

  lemma {:induction false} LinkPrefixAfterError(items: map<string, Plug>, order: seq<string>, k: nat, m: nat)
    requires Covers(items, order) && k <= m <= |order|
    requires LinkPrefix(items, order, k).result.Err?
    ensures LinkPrefix(items, order, m) == LinkPrefix(items, order, k)
  {
    if m == k {
    } else {
      LinkPrefixAfterError(items, order, k, m - 1);
      var prev := LinkPrefix(items, order, m - 1);
      assert prev.result.Err?;
      assert LinkPrefix(items, order, m) == prev;
    }
  }

  lemma {:induction false} LinkPrefixLinked(items: map<string, Plug>, order: seq<string>, k: nat)
    requires Covers(items, order) && k <= |order|
    requires LinkPrefix(items, order, k).result.Ok?
    ensures LinkedThrough(items, LinkPrefix(items, order, k).items, order, k)
  {
    if k > 0 {
      var prev := LinkPrefix(items, order, k - 1);
      assert prev.result.Ok?;
      LinkPrefixLinked(items, order, k - 1);
      var name := order[k - 1];
      var after := LinkPrefix(items, order, k).items;
      assert after == prev.items[name := Linked(prev.items[name])];
      PrefixSnoc(order, k);
      forall n | n in items
        ensures after[n] == (if n in order[..k] then Linked(items[n]) else items[n])
      {
        assert n in order[..k] <==> n in order[..k - 1] || n == name;
      }
    }
  }

  /** A successful link gives every plugin in the load order an instance and changes
      nothing else. */
  lemma LinkAllSucceeds(items: map<string, Plug>, order: seq<string>)
    requires Covers(items, order)
    requires LinkAll(items, order).result.Ok?
    ensures LinkedThrough(items, LinkAll(items, order).items, order, |order|)
    ensures forall k :: 0 <= k < |order| ==> LinkAll(items, order).items[order[k]].instance.Some?
  {
    LinkPrefixLinked(items, order, |order|);
    assert order[..|order|] == order;
  }

  /** A failed link stopped at some position `k` of the load order: the plugins before it
      are linked, that one and all others are unchanged, and the error is the one
      resolving the k-th plugin raised. */
  lemma {:induction false} LinkPrefixFails(items: map<string, Plug>, order: seq<string>, m: nat)
    requires Covers(items, order) && m <= |order|
    requires LinkPrefix(items, order, m).result.Err?
    ensures exists k :: 0 <= k < m && LinkedThrough(items, LinkPrefix(items, order, m).items, order, k) &&
              ResolvePlug(LinkPrefix(items, order, m).items, order[k], LinkPrefix(items, order, m).items[order[k]]) ==
              Err(LinkPrefix(items, order, m).result.error)
  {
    var prev := LinkPrefix(items, order, m - 1);
    if prev.result.Err? {
      LinkPrefixFails(items, order, m - 1);
    } else {
      LinkPrefixLinked(items, order, m - 1);
      assert LinkedThrough(items, LinkPrefix(items, order, m).items, order, m - 1);
    }
  }

  lemma LinkAllFails(items: map<string, Plug>, order: seq<string>)
    requires Covers(items, order)
    requires LinkAll(items, order).result.Err?
    ensures exists k :: 0 <= k < |order| && LinkedThrough(items, LinkAll(items, order).items, order, k) &&
              ResolvePlug(LinkAll(items, order).items, order[k], LinkAll(items, order).items[order[k]]) ==
              Err(LinkAll(items, order).result.error)
  {
    LinkPrefixFails(items, order, |order|);
  }

  /** Over coherent records, a failed link reports an invalid dependency, a dependency not
      yet instantiated, or unresolved imports, never a missing export. */
  lemma LinkAllErrors(items: map<string, Plug>, order: seq<string>)
    requires Covers(items, order) && CoherentItems(items)
    requires LinkAll(items, order).result.Err?
    ensures var e := LinkAll(items, order).result.error;
            e.InvalidDependency? || e.DependencyNotInstantiated? || e.UnresolvedImports?
  {
    LinkAllFails(items, order);
    LinkPrefixCoherent(items, order, |order|);
    var after := LinkAll(items, order).items;
    var k :| 0 <= k < |order| && LinkedThrough(items, after, order, k) &&
             ResolvePlug(after, order[k], after[order[k]]) == Err(LinkAll(items, order).result.error);
    ResolvePlugErrors(after, order[k], after[order[k]]);
  }

  /** Linking stops at the first plugin whose resolution fails, with that plugin's error. */
  lemma LinkStopsAt(items: map<string, Plug>, order: seq<string>, k: nat, e: Error)
    requires Covers(items, order) && k < |order|
    requires LinkPrefix(items, order, k).result.Ok?
    requires ResolvePlug(LinkPrefix(items, order, k).items, order[k], LinkPrefix(items, order, k).items[order[k]]) == Err(e)
    ensures LinkAll(items, order) == LinkOutcome(LinkPrefix(items, order, k).items, Err(e))
  {
    assert LinkPrefix(items, order, k + 1).result.Err?;
    LinkPrefixAfterError(items, order, k + 1, |order|);
  }

  /** The registry invariant: every name in the load order is registered, each record's
      id is a position of its name in the load order, and every record is coherent. */
  ghost predicate Registry(items: map<string, Plug>, order: seq<string>)
  {
    Covers(items, order) &&
    (forall n :: n in items ==> items[n].id < |order| && order[items[n].id] == n) &&
    CoherentItems(items)
  }

  /** Registering a coherent record under the next id keeps the registry invariant, also
      when the name was registered before. */
  lemma RegistryAdd(items: map<string, Plug>, order: seq<string>, name: string, p: Plug)
    requires Registry(items, order) && Coherent(p) && p.id == |order|
    ensures Registry(items[name := p], order + [name])
  {
    var items', order' := items[name := p], order + [name];
    forall k | 0 <= k < |order'| ensures order'[k] in items' {
      if k < |order| { assert order'[k] == order[k]; }
    }
  }

  /** Giving records instances keeps the registry invariant. */
  lemma RegistryLink(items: map<string, Plug>, order: seq<string>, name: string)
    requires Registry(items, order) && name in items
    ensures Registry(items[name := Linked(items[name])], order)
  {
  }

  /** Linking any prefix of the load order keeps the registry invariant, whether or not
      it stopped at an error. */
  lemma {:induction false} RegistryLinkPrefix(items: map<string, Plug>, order: seq<string>, k: nat)
    requires Registry(items, order) && k <= |order|
    ensures Registry(LinkPrefix(items, order, k).items, order)
  {
    if k > 0 {
      var prev := LinkPrefix(items, order, k - 1);
      var name := order[k - 1];
      assert Registry(prev.items, order) by {
        RegistryLinkPrefix(items, order, k - 1);
      }
      LinkPrefixItems(items, order, k);
      if prev.result.Ok? && ResolvePlug(prev.items, name, prev.items[name]).Ok? {
        RegistryLink(prev.items, order, name);
      }
    }
  }

  /** Load order matters: when plugin `b` imports `x` from its declared dependency `a`,
      linking `b` before `a` fails because `a` has no instance yet, and nothing changes. */
  lemma DependencyFirst(items: map<string, Plug>, a: string, b: string, x: string)
    requires a in items && b in items
    requires items[a].instance.None?
    requires items[b].deps == [a] && items[b].imports == [x] && x in items[a].exports
    ensures LinkAll(items, [b, a]) == LinkOutcome(items, Err(DependencyNotInstantiated(a, b)))
  {
    assert [a][..0] == [] && [x][..0] == [];
    assert ResolveDeps(items, b, [], [x]) == Ok(Narrowed([x], []));
    assert NarrowThrough(b, a, items[a], [x]) == Err(DependencyNotInstantiated(a, b));
    assert ResolveDeps(items, b, [a], [x]) == Err(DependencyNotInstantiated(a, b));
    assert LinkPrefix(items, [b, a], 1) == LinkOutcome(items, Err(DependencyNotInstantiated(a, b)));
  }

  /** Linking the dependency `a`, which needs no imports, before `b` succeeds: `x` is
      bound to `a`'s export and both plugins get instances. */
  lemma DependencyLast(items: map<string, Plug>, a: string, b: string, x: string)
    requires a in items && b in items && a != b && Coherent(items[a])
    requires items[a].imports == []
    requires items[b].deps == [a] && items[b].imports == [x] && x in items[a].exports
    ensures LinkAll(items, [a, b]) == LinkOutcome(items[a := Linked(items[a])][b := Linked(items[b])], Ok(()))
  {
    var pa := items[a];
    var linked := items[a := Linked(pa)];
    assert ResolvePlug(items, a, pa) == Ok([]);
    assert LinkPrefix(items, [a, b], 1) == LinkOutcome(linked, Ok(()));
    assert [a][..0] == [] && [x][..0] == [];
    assert linked[b] == items[b];
    assert ResolveDeps(linked, b, [], [x]) == Ok(Narrowed([x], []));
    var inst := Instance(pa.wasm);
    assert linked[a].instance == Some(inst);
    assert GetExport(inst, x).Some?;
    assert NarrowThrough(b, a, linked[a], []) == Ok(Narrowed([], []));
    assert [] + [Binding(x, a)] == [Binding(x, a)];
    assert NarrowThrough(b, a, linked[a], [x]) == Ok(Narrowed([], [Binding(x, a)]));
    assert ResolveDeps(linked, b, [a], [x]) == Ok(Narrowed([], [Binding(x, a)]));
  }

  /** An unregistered dependency fails resolution even after an earlier dependency has
      provided every import; a plugin without required imports never consults its
      dependencies. */
  lemma InvalidDependencyLate(items: map<string, Plug>, b: string, p: Plug, a: string, c: string, x: string)
    requires a in items && c !in items && Coherent(items[a]) && items[a].instance.Some?
    requires p.deps == [a, c] && x in items[a].exports
    ensures p.imports == [x] ==> ResolvePlug(items, b, p) == Err(InvalidDependency(c))
    ensures p.imports == [] ==> ResolvePlug(items, b, p) == Ok([])
  {
    if p.imports == [x] {
      assert [a, c][..1] == [a] && [a][..0] == [] && [x][..0] == [];
      assert GetExport(items[a].instance.value, x).Some?;
      assert NarrowThrough(b, a, items[a], []) == Ok(Narrowed([], []));
      assert [] + [Binding(x, a)] == [Binding(x, a)];
      assert NarrowThrough(b, a, items[a], [x]) == Ok(Narrowed([], [Binding(x, a)]));
      assert ResolveDeps(items, b, [a], [x]) == Ok(Narrowed([], [Binding(x, a)]));
    }
  }
}
