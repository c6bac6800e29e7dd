/**
 * What registration learns about a module: its declared dependencies (from `__deps`),
 * its export names, and the imports that other plugins have to provide.
 */
module Metadata {
  import opened Errors
  import opened Engine
  import opened DepsString
  import opened Sequences

  const DEPS_EXPORT := "__deps"
  const MEMORY_EXPORT := "memory"

  datatype PlugMetadata = PlugMetadata(deps: seq<string>, exports: seq<string>, imports: seq<string>)

  ghost predicate NoDuplicates(s: seq<string>)
  {
    forall i, j :: 0 <= i < j < |s| ==> s[i] != s[j]
  }

  /** The distinct names of `s`, each at its first occurrence. */
  function Dedup(s: seq<string>): (r: seq<string>)
    ensures forall x :: x in r <==> x in s
    ensures NoDuplicates(r)
  {
    if s == [] then []
    else
      var init := s[..|s| - 1];
      var d := Dedup(init);
      var x := s[|s| - 1];
      assert s == init + [x];
      if x in d then d else d + [x]
  }

  /** The names of `s` that are not host functions, in the same order. */
  function Without(s: seq<string>, hosts: seq<string>): (r: seq<string>)
    ensures forall x :: x in r <==> x in s && x !in hosts
    ensures NoDuplicates(s) ==> NoDuplicates(r)
  {
    if s == [] then []
    else
      var init := s[..|s| - 1];
      var x := s[|s| - 1];
      assert s == init + [x];
      assert NoDuplicates(s) ==> NoDuplicates(init) && x !in init;
      if x in hosts then Without(init, hosts) else Without(init, hosts) + [x]
  }

  /** The imports a plugin needs from other plugins: each distinct import name of the
      module, in discovery order, unless a host function of that name exists. */
  function RequiredImports(imports: seq<string>, hosts: seq<string>): (r: seq<string>)
    ensures forall x :: x in r <==> x in imports && x !in hosts
    ensures NoDuplicates(r)
    ensures imports == [] ==> r == []
  {
    Without(Dedup(imports), hosts)
  }

  /** Position of the first occurrence of `x` in `s`, or |s| when there is none. */
  function FirstOccurrence(s: seq<string>, x: string): (r: nat)
    ensures r <= |s|
    ensures r < |s| <==> x in s
    ensures r < |s| ==> s[r] == x
    ensures forall j :: 0 <= j < r ==> s[j] != x
  {
    if s == [] then 0
    else if s[0] == x then 0
    else 1 + FirstOccurrence(s[1..], x)
  }

  /** `r` lists names in the order in which they first occur in `s`. */
  ghost predicate InDiscoveryOrder(r: seq<string>, s: seq<string>)
  {
    forall i, j :: 0 <= i < j < |r| ==> FirstOccurrence(s, r[i]) < FirstOccurrence(s, r[j])
  }

  lemma {:induction false} DedupInDiscoveryOrder(s: seq<string>)
    ensures InDiscoveryOrder(Dedup(s), s)
  {
    if s != [] {
      var init := s[..|s| - 1];
      var x := s[|s| - 1];
      var d := Dedup(init);
      DedupInDiscoveryOrder(init);
      assert s == init + [x];
      forall y | y in init ensures FirstOccurrence(s, y) == FirstOccurrence(init, y) {
        var k := FirstOccurrence(init, y);
        assert s[k] == y;
        assert forall j :: 0 <= j < k ==> s[j] == init[j];
      }
      assert InDiscoveryOrder(d, s) by {
        forall i, j | 0 <= i < j < |d| ensures FirstOccurrence(s, d[i]) < FirstOccurrence(s, d[j]) {
          assert d[i] in init && d[j] in init;
        }
      }
      if x !in d {
        assert FirstOccurrence(s, x) == |s| - 1 by {
          assert forall j :: 0 <= j < |s| - 1 ==> s[j] == init[j];
        }
        forall i | 0 <= i < |d| ensures FirstOccurrence(s, d[i]) < |s| - 1 {
          assert d[i] in init;
        }
        var r := d + [x];
        forall i, j | 0 <= i < j < |r| ensures FirstOccurrence(s, r[i]) < FirstOccurrence(s, r[j]) {
          assert r[i] == d[i];
          if j < |d| { assert r[j] == d[j]; }
        }
      }
    }
  }

  lemma {:induction false} WithoutInDiscoveryOrder(d: seq<string>, hosts: seq<string>, s: seq<string>)
    requires InDiscoveryOrder(d, s)
    ensures InDiscoveryOrder(Without(d, hosts), s)
  {
    if d != [] {
      var init := d[..|d| - 1];
      var x := d[|d| - 1];
      assert InDiscoveryOrder(init, s) by {
        forall i, j | 0 <= i < j < |init| ensures FirstOccurrence(s, init[i]) < FirstOccurrence(s, init[j]) {
          assert init[i] == d[i] && init[j] == d[j];
        }
      }
      WithoutInDiscoveryOrder(init, hosts, s);
      var w := Without(init, hosts);
      if x !in hosts {
        assert forall i :: 0 <= i < |w| ==> FirstOccurrence(s, w[i]) < FirstOccurrence(s, x) by {
          forall i | 0 <= i < |w| ensures FirstOccurrence(s, w[i]) < FirstOccurrence(s, x) {
            assert w[i] in init;
            var k :| 0 <= k < |init| && init[k] == w[i];
            assert d[k] == w[i];
          }
        }
        var r := w + [x];
        assert Without(d, hosts) == r;
        forall i, j | 0 <= i < j < |r| ensures FirstOccurrence(s, r[i]) < FirstOccurrence(s, r[j]) {
          assert r[i] == w[i];
          if j < |w| { assert r[j] == w[j]; }
        }
      } else {
        assert Without(d, hosts) == w;
      }
    }
  }

  /** The required imports appear in the order in which instantiation discovers them. */
  lemma RequiredImportsInDiscoveryOrder(imports: seq<string>, hosts: seq<string>)
    ensures InDiscoveryOrder(RequiredImports(imports, hosts), imports)
  {
    DedupInDiscoveryOrder(imports);
    WithoutInDiscoveryOrder(Dedup(imports), hosts, imports);
  }

  /** Past position `p`, names already seen before `p` do not change the distinct list. */
  lemma {:induction false} DedupStable(s: seq<string>, p: nat, m: nat)
    requires p <= m <= |s|
    requires forall j :: p <= j < m ==> s[j] in s[..p]
    ensures Dedup(s[..m]) == Dedup(s[..p])
  {
    if m > p {
      DedupStable(s, p, m - 1);
      assert s[..m][..m - 1] == s[..m - 1];
      assert s[..m][m - 1] == s[m - 1];
      assert s[m - 1] in s[..p];
      assert s[m - 1] in Dedup(s[..p]);
    }
  }

  /** One round of import discovery: the first import at or after `p` not seen before `p`
      is at `q`; the imports seen grow by it, and so does the required list unless it
      names a host function. */
  lemma DiscoveryStep(s: seq<string>, hosts: seq<string>, p: nat, q: nat)
    requires p <= q < |s|
    requires forall j :: p <= j < q ==> s[j] in s[..p]
    requires s[q] !in s[..p]
    ensures Elements(s[..q + 1]) == Elements(s[..p]) + {s[q]}
    ensures Without(Dedup(s[..q + 1]), hosts) ==
              Without(Dedup(s[..p]), hosts) + (if s[q] in hosts then [] else [s[q]])
  {
    SeenBefore(s, p, q);
    var d := Dedup(s[..p]) + [s[q]];
    assert Dedup(s[..q + 1]) == d by {
      DedupNext(s, p, q);
    }
    assert d[..|d| - 1] == Dedup(s[..p]);
  }

  /** Names at positions `p..q` that were all seen before `p` add nothing to the set seen. */
  lemma SeenBefore(s: seq<string>, p: nat, q: nat)
    requires p <= q < |s|
    requires forall j :: p <= j < q ==> s[j] in s[..p]
    ensures Elements(s[..q + 1]) == Elements(s[..p]) + {s[q]}
  {
    assert s[..q + 1] == s[..q] + [s[q]];
    forall x | x in s[..q] ensures x in s[..p] {
      var j :| 0 <= j < q && s[j] == x;
      if j >= p { assert s[j] in s[..p]; } else { assert s[..p][j] == x; }
    }
  }

  /** A name new at `q`, after names already seen, extends the distinct list by itself. */
  lemma DedupNext(s: seq<string>, p: nat, q: nat)
    requires p <= q < |s|
    requires forall j :: p <= j < q ==> s[j] in s[..p]
    requires s[q] !in s[..p]
    ensures Dedup(s[..q + 1]) == Dedup(s[..p]) + [s[q]]
  {
    DedupStable(s, p, q);
    assert s[..q + 1][..q] == s[..q];
    assert s[..q + 1][q] == s[q];
  }

  /** Discovery is complete once every later import was seen before `p`. */
  lemma DiscoveryDone(s: seq<string>, p: nat)
    requires p <= |s|
    requires forall j :: p <= j < |s| ==> s[j] in s[..p]
    ensures Dedup(s) == Dedup(s[..p])
  {
    DedupStable(s, p, |s|);
    assert s[..|s|] == s;
  }

  /** The declared dependencies of a module: none without a `() -> u32` export `__deps`,
      otherwise the string it points at, or the failure of calling it or reading memory. */
  function DepsOf(m: WasmModule): (r: Result<seq<string>>)
    ensures GetTypedFunc(Instance(m), DEPS_EXPORT, DEPS_TYPE).Err? ==> r == Ok([])
    ensures GetTypedFunc(Instance(m), DEPS_EXPORT, DEPS_TYPE).Ok? && r.Ok? ==>
              |r.value| >= 1 && NoDelimiter(r.value)
  {
    if GetTypedFunc(Instance(m), DEPS_EXPORT, DEPS_TYPE).Err? then Ok([])
    else match m.depsCall
      case DepsTrap => Err(DepsCallTrapped)
      case DepsReturn(address, memory) =>
        if !HasMemory(Instance(m), MEMORY_EXPORT) then Err(MissingMemoryExport)
        else
          DecodeDepsFields(memory, address);
          DecodeDeps(memory, address)
  }

  /** Extraction fails exactly when `__deps` exists and calling it traps, memory is not
      exported, or no terminator follows the address it returns. */
  lemma DepsOfFailures(m: WasmModule)
    ensures DepsOf(m).Err? <==>
              GetTypedFunc(Instance(m), DEPS_EXPORT, DEPS_TYPE).Ok? &&
              (m.depsCall.DepsTrap? || !HasMemory(Instance(m), MEMORY_EXPORT) ||
               forall j :: m.depsCall.address <= j < |m.depsCall.memory| ==> m.depsCall.memory[j] != 0)
    ensures DepsOf(m) == Err(DepsCallTrapped) <==>
              GetTypedFunc(Instance(m), DEPS_EXPORT, DEPS_TYPE).Ok? && m.depsCall.DepsTrap?
  {
    if m.depsCall.DepsReturn? {
      DecodeDepsFields(m.depsCall.memory, m.depsCall.address);
    }
  }

  /** The metadata of a module, given the host functions registered so far. */
  function MetadataOf(m: WasmModule, hosts: seq<string>): (r: Result<PlugMetadata>)
    ensures r.Ok? ==> r.value.exports == ExportNames(m)
  {
    match DepsOf(m)
    case Err(e) => Err(e)
    case Ok(deps) => Ok(PlugMetadata(deps, ExportNames(m), RequiredImports(m.imports, hosts)))
  }

  /** Metadata extraction fails exactly when reading the dependencies does; otherwise the
      exports are the module's export names in order, and the imports are the module's
      import names that are not host functions, each once, in discovery order (none for a
      module without imports). */
  lemma MetadataOfSpec(m: WasmModule, hosts: seq<string>)
    ensures var r := MetadataOf(m, hosts);
            (r.Ok? <==> DepsOf(m).Ok?) && (r.Err? ==> r.error == DepsOf(m).error)
    ensures var r := MetadataOf(m, hosts);
            r.Ok? ==> r.value.deps == DepsOf(m).value && r.value.exports == ExportNames(m)
    ensures var r := MetadataOf(m, hosts);
            r.Ok? ==> forall x :: x in r.value.imports <==> x in m.imports && x !in hosts
    ensures var r := MetadataOf(m, hosts);
            r.Ok? ==> NoDuplicates(r.value.imports) && InDiscoveryOrder(r.value.imports, m.imports)
    ensures var r := MetadataOf(m, hosts);
            r.Ok? && m.imports == [] ==> r.value.imports == []
  {
    RequiredImportsInDiscoveryOrder(m.imports, hosts);
  }

  /** The read loop over linear memory: one byte at a time from `address` until a 0. */
  method ReadDeps(memory: seq<byte>, address: nat) returns (r: Result<seq<string>>)
    ensures r == DecodeDeps(memory, address)
  {
    var ptr := address;
    var deps: seq<string> := [""];
    if ptr >= |memory| {
      return Err(MemoryAccessError);
    }
    var b := memory[ptr];
    while b != 0
      invariant address <= ptr < |memory| && b == memory[ptr]
      invariant TerminatorAt(memory, ptr) == TerminatorAt(memory, address)
      invariant deps == Split(Latin1(memory[address..ptr]))
      decreases |memory| - ptr
    {
      var c := (b as int) as char;
      SplitNextByte(memory, address, ptr);
      if c == DELIMITER {
        deps := deps + [""];
      } else {
        deps := deps[..|deps| - 1] + [deps[|deps| - 1] + [c]];
      }
      ptr := ptr + 1;
      if ptr >= |memory| {
        return Err(MemoryAccessError);
      }
      b := memory[ptr];
    }
    return Ok(deps);
  }
}
