/** Where the configuration file lives (src/Configs.cs). A directory is the
    sequence of its path segments from the root down: `p[..k]` is the
    ancestor whose name is `p[k - 1]`, and `p[..1]` is the root, which has no
    parent. The module path is a file path string; a null path is "". */
module ConfigPaths {
  import opened Text

  /** The position of the last `c` in `s`. */
  function LastIndexOf(s: string, c: char): (r: Option<nat>)
    ensures r.Some? ==> r.value < |s| && s[r.value] == c && c !in s[r.value + 1..]
    ensures r.None? ==> c !in s
  {
    if |s| == 0 then None
    else if s[|s| - 1] == c then Some(|s| - 1)
    else
      var r := LastIndexOf(s[..|s| - 1], c);
      assert s == s[..|s| - 1] + [s[|s| - 1]];
      r
  }

  lemma LastIndexOfJoin(x: string, c: char, y: string)
    requires c !in y
    ensures LastIndexOf(x + [c] + y, c) == Some(|x|)
  {
    var s := x + [c] + y;
    assert s[|x|] == c && s[|x| + 1..] == y;
  }

  /** `Path.GetFileName`: what follows the last separator. */
  function FileName(path: string): (r: string)
    ensures '/' !in r
  {
    match LastIndexOf(path, '/')
    case None => path
    case Some(i) => path[i + 1..]
  }

  /** `Path.GetFileNameWithoutExtension`: the file name cut at its last '.';
      a name that starts with its only '.' has an empty stem. */
  function FileNameWithoutExtension(path: string): (r: string)
    ensures '/' !in r
  {
    Stem(FileName(path))
  }

  /** A file name up to its last '.', or all of it without one. */
  function Stem(f: string): (r: string)
    ensures |r| <= |f| && r == f[..|r|]
  {
    match LastIndexOf(f, '.')
    case None => f
    case Some(i) => f[..i]
  }

  lemma FileNameOfJoin(dir: string, file: string)
    requires '/' !in file
    ensures FileName(dir + ['/'] + file) == file
  {
    LastIndexOfJoin(dir, '/', file);
    assert (dir + ['/'] + file)[|dir| + 1..] == file;
  }

  lemma StemOfJoin(stem: string, ext: string)
    requires '.' !in ext
    ensures Stem(stem + ['.'] + ext) == stem
  {
    LastIndexOfJoin(stem, '.', ext);
    assert (stem + ['.'] + ext)[..|stem|] == stem;
  }

  /** A module file `<dir>/<stem>.<ext>` has the stem as its name. */
  lemma FileNameWithoutExtensionOf(dir: string, stem: string, ext: string)
    requires '/' !in stem && '/' !in ext && '.' !in ext
    ensures FileNameWithoutExtension(dir + "/" + stem + "." + ext) == stem
  {
    var file := stem + ['.'] + ext;
    assert dir + "/" + stem + "." + ext == dir + ['/'] + file;
    assert '/' !in file by {
      assert forall c | c in file :: c in stem || c == '.' || c in ext;
    }
    FileNameOfJoin(dir, file);
    StemOfJoin(stem, ext);
  }

  /** The plugin's folder under `configs/plugins`: the module directory's
      name, unless that directory is itself "plugins" and the module file has
      a non-blank name, which is then used instead. */
  function DeterminePluginFolderName(modulePath: string, moduleDirectory: seq<string>): (r: string)
    requires |moduleDirectory| >= 1
    ensures var name := moduleDirectory[|moduleDirectory| - 1];
            r == name <==> !EqualsIgnoreCase(name, "plugins") || Blank(FileNameWithoutExtension(modulePath))
                           || FileNameWithoutExtension(modulePath) == name
    ensures r != moduleDirectory[|moduleDirectory| - 1] ==> !Blank(r) && r == FileNameWithoutExtension(modulePath)
  {
    var name := moduleDirectory[|moduleDirectory| - 1];
    var moduleName := FileNameWithoutExtension(modulePath);
    if !Blank(moduleName) then
      if !EqualsIgnoreCase(name, "plugins") then name else moduleName
    else
      name
  }

  /** The ancestor `p[..k]` is a "plugins" directory inside
      "counterstrikesharp" inside "addons", compared case-insensitively. */
  predicate AddonsLayout(p: seq<string>, k: int) {
    3 <= k <= |p|
    && EqualsIgnoreCase(p[k - 1], "plugins")
    && EqualsIgnoreCase(p[k - 2], "counterstrikesharp")
    && EqualsIgnoreCase(p[k - 3], "addons")
  }

  /** The configuration directory for a module: under the innermost
      `addons/counterstrikesharp/plugins` ancestor it is
      `<addons>/counterstrikesharp/configs/plugins/<folder>`; without one it
      is `<moduleDirectory>/config`. */
  method ResolveConfigDirectory(modulePath: string, moduleDirectory: seq<string>) returns (r: seq<string>)
    requires |moduleDirectory| >= 1
    ensures (exists k :: AddonsLayout(moduleDirectory, k)) ==>
              exists k :: AddonsLayout(moduleDirectory, k)
                && (forall j | k < j :: !AddonsLayout(moduleDirectory, j))
                && r == moduleDirectory[..k - 2] + ["counterstrikesharp", "configs", "plugins",
                                                    DeterminePluginFolderName(modulePath, moduleDirectory)]
    ensures (forall k :: !AddonsLayout(moduleDirectory, k)) ==> r == moduleDirectory + ["config"]
  {
    var folder := DeterminePluginFolderName(modulePath, moduleDirectory);
    var k := |moduleDirectory|;
    while k >= 1
      invariant 0 <= k <= |moduleDirectory|
      invariant forall j | k < j :: !AddonsLayout(moduleDirectory, j)
    {
      if k >= 3 && AddonsLayout(moduleDirectory, k) {
        return moduleDirectory[..k - 2] + ["counterstrikesharp", "configs", "plugins", folder];
      }
      k := k - 1;
    }
    r := moduleDirectory + ["config"];
  }
}
