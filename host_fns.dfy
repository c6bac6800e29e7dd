/**
 * Defining the host functions in a plugin's own linker, in registration order. The
 * linker refuses a second definition of a name, so a host function name registered
 * twice makes every later registration of a plugin fail.
 */
module HostFns {
  import opened Errors
  import opened Metadata

  /** The first position whose name already occurs before it. */
  function FirstRepeat(names: seq<string>): (r: Option<nat>)
    ensures r.None? <==> NoDuplicates(names)
    ensures r.Some? ==> r.value < |names| && names[r.value] in names[..r.value]
    ensures r.Some? ==> NoDuplicates(names[..r.value])
  {
    if names == [] then None
    else
      var init := names[..|names| - 1];
      var x := names[|names| - 1];
      assert names == init + [x];
      match FirstRepeat(init)
      case Some(j) =>
        assert names[..j] == init[..j];
        Some(j)
      case None =>
        if x in init then
          var i :| 0 <= i < |init| && init[i] == x;
          assert names[i] == names[|names| - 1];
          Some(|names| - 1)
        else None
  }

  /** Once a prefix has a repeated name, the whole sequence has the same first repeat. */
  lemma {:induction false} FirstRepeatStable(names: seq<string>, m: nat)
    requires m <= |names| && FirstRepeat(names[..m]).Some?
    ensures FirstRepeat(names) == FirstRepeat(names[..m])
  {
    if m < |names| {
      var init := names[..|names| - 1];
      assert init[..m] == names[..m];
      FirstRepeatStable(init, m);
    } else {
      assert names[..m] == names;
    }
  }

  /** Defining the host functions one after the other: the first name defined a second
      time fails. */
  function DefineHosts(names: seq<string>): (r: Result<()>)
    ensures r.Ok? <==> NoDuplicates(names)
    ensures r.Err? ==>
              exists j :: 0 <= j < |names| && NoDuplicates(names[..j]) && names[j] in names[..j] &&
                          r.error == HostFunctionDefinedTwice(names[j])
  {
    match FirstRepeat(names)
    case Some(j) => Err(HostFunctionDefinedTwice(names[j]))
    case None => Ok(())
  }

  /** Adding a host function keeps the definitions possible exactly when its name is new. */
  lemma DefineHostsSnoc(names: seq<string>, name: string)
    ensures DefineHosts(names + [name]).Ok? <==> DefineHosts(names).Ok? && name !in names
  {
    var s := names + [name];
    if NoDuplicates(s) {
      assert forall k :: 0 <= k < |names| ==> names[k] == s[k];
    }
    if name in names {
      var i :| 0 <= i < |names| && names[i] == name;
      assert s[i] == s[|names|];
    }
  }

  /** A name registered twice: defining the host functions fails on its second entry. */
  lemma DefineHostsExample()
    ensures DefineHosts(["print", "print"]) == Err(HostFunctionDefinedTwice("print"))
    ensures DefineHosts(["print", "log"]) == Ok(())
  {
    assert ["print", "print"][..1] == ["print"];
    assert ["print", "log"][..1] == ["print"];
  }
}
