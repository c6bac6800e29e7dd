/**
 * Plugin names come from the module's file name with its extension removed, following
 * how Rust's `Path` finds the file name (the last '/'-separated component) and the
 * extension (what follows the last '.', unless that dot starts the file name).
 */
module Naming {
  import opened Errors

  /** The last component of a path: everything after its last '/'. */
  function FileName(path: string): (f: string)
    ensures '/' !in f
    ensures |f| <= |path| && path[|path| - |f|..] == f
    ensures |f| < |path| ==> path[|path| - |f| - 1] == '/'
  {
    if path == [] then []
    else if path[|path| - 1] == '/' then []
    else
      var init := path[..|path| - 1];
      var f := FileName(init);
      assert path[|path| - |f| - 1..] == init[|init| - |f|..] + [path[|path| - 1]];
      assert |f| < |init| ==> path[|path| - |f| - 2] == init[|init| - |f| - 1];
      f + [path[|path| - 1]]
  }

  /** Position of the last '.' of `f`. */
  function LastDot(f: string): (r: Option<nat>)
    ensures r.None? <==> '.' !in f
    ensures r.Some? ==> r.value < |f| && f[r.value] == '.' && '.' !in f[r.value + 1..]
  {
    if f == [] then None
    else if f[|f| - 1] == '.' then Some(|f| - 1)
    else
      var init := f[..|f| - 1];
      assert f == init + [f[|f| - 1]];
      match LastDot(init)
      case None => None
      case Some(k) =>
        assert f[k + 1..] == init[k + 1..] + [f[|f| - 1]];
        Some(k)
  }

  /** The file name has an extension: it contains a '.' after its first character and is
      not "..". Registration relies on this (the source unwraps the extension). */
  predicate HasExtension(path: string)
  {
    var f := FileName(path);
    f != ".." && LastDot(f).Some? && LastDot(f).value > 0
  }

  /** The extension: what follows the last '.' of the file name. */
  function Extension(path: string): (ext: string)
    requires HasExtension(path)
    ensures '.' !in ext && '/' !in ext
  {
    var f := FileName(path);
    f[LastDot(f).value + 1..]
  }

  /** The plugin name: the file name cut `|extension| + 1` characters before its end. */
  function PlugName(path: string): (name: string)
    requires HasExtension(path)
    ensures FileName(path) == name + ['.'] + Extension(path)
    ensures name != [] && '/' !in name
  {
    var f := FileName(path);
    var ext := Extension(path);
    assert f == f[..|f| - |ext| - 1] + ['.'] + ext;
    f[..|f| - |ext| - 1]
  }

  /** A path whose last component is `f` has file name `f`. */
  lemma {:induction false} FileNameOf(dir: string, f: string)
    requires '/' !in f
    ensures FileName(dir + ['/'] + f) == f
  {
    var path := dir + ['/'] + f;
    if f != [] {
      FileNameOf(dir, f[..|f| - 1]);
      assert path[..|path| - 1] == dir + ['/'] + f[..|f| - 1];
      assert f[..|f| - 1] + [f[|f| - 1]] == f;
    } else {
      assert path[|path| - 1] == '/';
    }
  }

  /** A file name `stem.ext`, for an extension without dots and a non-empty stem (the file
      name ".." excepted), has its last dot right after the stem. */
  lemma HasExtensionOf(path: string, stem: string, ext: string)
    requires FileName(path) == stem + ['.'] + ext
    requires '.' !in ext && stem != [] && (stem != "." || ext != [])
    ensures HasExtension(path) && LastDot(FileName(path)) == Some(|stem|)
  {
    var f := stem + ['.'] + ext;
    LastDotOf(stem, ext);
    assert f != ".." by {
      if |f| == 2 {
        assert |stem| == 1 && ext == [] && f[0] == stem[0];
        assert stem == [stem[0]] && stem[0] != '.';
      }
    }
  }

  /** Such a path has extension `ext` and plugin name `stem`: the name keeps every dot of
      the stem. */
  lemma NamesOf(path: string, stem: string, ext: string)
    requires FileName(path) == stem + ['.'] + ext
    requires '.' !in ext && stem != [] && (stem != "." || ext != [])
    ensures HasExtension(path) && Extension(path) == ext && PlugName(path) == stem
  {
    HasExtensionOf(path, stem, ext);
    var f := FileName(path);
    assert Extension(path) == ext by {
      assert Extension(path) == f[|stem| + 1..];
      assert f[|stem| + 1..] == ext;
    }
    assert PlugName(path) == stem by {
      assert |f| - |Extension(path)| - 1 == |stem|;
      assert PlugName(path) == f[..|stem|];
      assert f[..|stem|] == stem;
    }
  }

  /** The extension and the plugin name of `dir/stem.ext`. */
  lemma PlugNameOf(dir: string, stem: string, ext: string)
    requires '/' !in stem && '/' !in ext && '.' !in ext && stem != []
    requires stem != "." || ext != []
    ensures HasExtension(dir + ['/'] + stem + ['.'] + ext)
    ensures Extension(dir + ['/'] + stem + ['.'] + ext) == ext
    ensures PlugName(dir + ['/'] + stem + ['.'] + ext) == stem
  {
    var path := dir + ['/'] + stem + ['.'] + ext;
    assert path == dir + ['/'] + (stem + ['.'] + ext);
    FileNameOf(dir, stem + ['.'] + ext);
    NamesOf(path, stem, ext);
  }

  lemma {:induction false} LastDotOf(a: string, b: string)
    requires '.' !in b
    ensures LastDot(a + ['.'] + b) == Some(|a|)
  {
    var f := a + ['.'] + b;
    if b != [] {
      LastDotOf(a, b[..|b| - 1]);
      assert f[..|f| - 1] == a + ['.'] + b[..|b| - 1];
      assert f[|f| - 1] == b[|b| - 1];
    } else {
      assert f[|f| - 1] == '.';
    }
  }
}
