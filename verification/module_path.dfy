/**
 The import specifier the generated routes module uses for a controller: the
 controller's location, without its TypeScript source extension, made
 relative to the routes directory and prefixed with "./", followed by the
 extension that the module-system settings call for.
 */
module ModulePathResolver {
  import Paths

  /** The source extension of a controller file, as recognised at the very end of its location. */
  datatype SourceExtension = Ts | Mts | Cts | Other

  /** The module-system settings: `esm` and `rewriteRelativeImportExtensions`. */
  datatype ModuleConfig = ModuleConfig(esm: bool, rewriteRelativeImportExtensions: bool)

  predicate EndsWith(s: string, suffix: string) {
    |suffix| <= |s| && s[|s| - |suffix|..] == suffix
  }

  /** The text of a source extension; `Other` has none that is recognised. */
  function SourceSuffix(ext: SourceExtension): string {
    match ext
    case Ts => ".ts"
    case Mts => ".mts"
    case Cts => ".cts"
    case Other => ""
  }

  /**
   The extension is found by an end-anchored match only. Each recognised
   extension is reported exactly when the location ends with it, so the
   three checks cannot shadow each other, whatever order they run in.
   */
  function ExtensionOf(location: string): (ext: SourceExtension)
    ensures ext == Ts <==> EndsWith(location, ".ts")
    ensures ext == Mts <==> EndsWith(location, ".mts")
    ensures ext == Cts <==> EndsWith(location, ".cts")
    ensures EndsWith(location, SourceSuffix(ext))
  {
    if EndsWith(location, ".mts") then
      assert location[|location| - 3] == 'm';
      Mts
    else if EndsWith(location, ".cts") then
      assert location[|location| - 3] == 'c';
      Cts
    else if EndsWith(location, ".ts") then Ts
    else Other
  }

  /** The location with its trailing source extension removed, and nothing else. */
  function Stem(location: string): (stem: string)
    ensures location == stem + SourceSuffix(ExtensionOf(location))
    ensures ExtensionOf(location) == Other ==> stem == location
  {
    location[..|location| - |SourceSuffix(ExtensionOf(location))|]
  }

  /** Appending a recognised extension to any name is undone by `Stem`, and recognised as that extension. */
  lemma StemRoundTrip(name: string, ext: SourceExtension)
    requires ext != Other
    ensures ExtensionOf(name + SourceSuffix(ext)) == ext
    ensures Stem(name + SourceSuffix(ext)) == name
  {
    var location := name + SourceSuffix(ext);
    var n := |location|;
    match ext {
      case Ts =>
        assert location[n - 3..] == ".ts";
        assert location[n - 3] == '.';
      case Mts =>
        assert location[n - 4..] == ".mts";
        assert location[n - 3] == 'm';
      case Cts =>
        assert location[n - 4..] == ".cts";
        assert location[n - 3] == 'c';
    }
    assert location[..|name|] == name;
  }

  /** The extension TypeScript emits for a source extension: "ts" becomes "js", so ".mts" gives ".mjs". */
  function CompiledSuffix(ext: SourceExtension): (r: string)
    ensures ext != Other ==> r == SourceSuffix(ext)[..|SourceSuffix(ext)| - 2] + "js"
    ensures ext == Other ==> r == ""
  {
    match ext
    case Ts => ".js"
    case Mts => ".mjs"
    case Cts => ".cjs"
    case Other => ""
  }

  /**
   The extension appended to the specifier, by module system, rewrite flag and
   source extension: nothing outside ESM, the source extension itself under
   ESM with rewriting, the compiled extension under plain ESM. Under ESM a
   recognised source extension always leaves a visible extension behind.
   */
  function OutputSuffix(config: ModuleConfig, ext: SourceExtension): (r: string)
    ensures !config.esm ==> r == ""
    ensures config.esm && config.rewriteRelativeImportExtensions ==> r == SourceSuffix(ext)
    ensures config.esm && !config.rewriteRelativeImportExtensions ==> r == CompiledSuffix(ext)
    ensures config.esm ==> (r == "" <==> ext == Other)
  {
    if !config.esm then ""
    else if config.rewriteRelativeImportExtensions then SourceSuffix(ext)
    else CompiledSuffix(ext)
  }

  /** Under ESM the appended extension tells the source extensions apart: no two share one. */
  lemma OutputSuffixDistinguishes(config: ModuleConfig, a: SourceExtension, b: SourceExtension)
    requires config.esm
    requires OutputSuffix(config, a) == OutputSuffix(config, b)
    ensures a == b
  {
  }

  /** Without the rewrite flag no source extension is ever appended. */
  lemma NoSourceSuffixWithoutRewrite(config: ModuleConfig, ext: SourceExtension)
    requires !(config.esm && config.rewriteRelativeImportExtensions)
    ensures OutputSuffix(config, ext) !in {".ts", ".mts", ".cts"}
    ensures OutputSuffix(config, ext) in {"", ".js", ".mjs", ".cjs"}
  {
  }

  /** The specifier for a relative path: always "./" first, so it is never a bare package name. */
  function Specifier(rel: seq<string>): (r: string)
    ensures |r| >= 2 && r[..2] == "./"
  {
    "./" + Paths.Join(rel)
  }

  /** A module loader resolving the specifier from directory `dir` walks exactly the relative path. */
  lemma SpecifierResolves(dir: seq<string>, rel: seq<string>)
    requires Paths.Normal(dir)
    requires Paths.Separated(rel)
    ensures Paths.Resolve(dir, Specifier(rel)) == Paths.Walk(dir, rel)
  {
    var joined := Paths.Join(rel);
    assert Specifier(rel) == "." + "/" + joined;
    Paths.SplitAtSeparator(".", joined);
    var segs := Paths.Split(joined);
    assert Paths.Walk(dir, ["."] + segs) == Paths.Walk(dir, segs) by {
      assert (["."] + segs)[1..] == segs;
    }
    if |rel| == 0 {
      assert joined == "";
      assert segs == [""];
      assert Paths.Walk(dir, segs) == Paths.Walk(dir, segs[1..]);
    } else {
      Paths.SplitJoin(rel);
    }
  }

  /** The path, relative to the routes directory, of the controller's location without extension. */
  function ImportPath(cwd: seq<string>, routesDir: string, location: string): (rel: seq<string>)
    requires Paths.Normal(cwd)
    ensures Paths.Separated(rel)
    ensures Paths.Walk(Paths.Resolve(cwd, routesDir), rel) == Paths.Resolve(cwd, Stem(location))
    ensures Paths.DirectRoute(Paths.Resolve(cwd, routesDir), Paths.Resolve(cwd, Stem(location)), rel)
  {
    Paths.Relative(Paths.Resolve(cwd, routesDir), Paths.Resolve(cwd, Stem(location)))
  }

  /**
   The module path for a controller at `location`, with the routes written to
   `routesDir` and relative paths resolved against the working directory `cwd`.
   It starts with "./"; what precedes the appended extension, resolved from the
   routes directory, names the controller's file without its source extension,
   and is "./" followed by the direct route there (no detour through a
   directory it does not need); the appended extension follows the
   module-system table.
   */
  function ModulePath(cwd: seq<string>, routesDir: string, location: string, config: ModuleConfig): (r: string)
    requires Paths.Normal(cwd)
    ensures |r| >= 2 && r[..2] == "./"
    ensures var ext := ExtensionOf(location);
      exists base :: r == base + OutputSuffix(config, ext)
                  && Paths.Resolve(Paths.Resolve(cwd, routesDir), base) == Paths.Resolve(cwd, Stem(location))
    ensures var ext := ExtensionOf(location);
      exists rel :: r == Specifier(rel) + OutputSuffix(config, ext)
                 && Paths.DirectRoute(Paths.Resolve(cwd, routesDir), Paths.Resolve(cwd, Stem(location)), rel)
  {
    var rel := ImportPath(cwd, routesDir, location);
    var base := Specifier(rel);
    SpecifierResolves(Paths.Resolve(cwd, routesDir), rel);
    base + OutputSuffix(config, ExtensionOf(location))
  }

  /**
   A controller that sits in the routes directory "." gets "./", its file name
   without the trailing source extension, and the table's extension; the host's
   working directory plays no part.
   */
  lemma SameDirectory(cwd: seq<string>, location: string, config: ModuleConfig)
    requires Paths.Normal(cwd)
    requires Paths.IsName(Stem(location))
    ensures ModulePath(cwd, ".", location, config) == "./" + Stem(location) + OutputSuffix(config, ExtensionOf(location))
  {
    var stem := Stem(location);
    Paths.ResolveDot(cwd);
    Paths.ResolveNames(cwd, [stem]);
    assert Paths.Join([stem]) == stem;
    Paths.RelativeDescendant(cwd, [stem]);
    assert ImportPath(cwd, ".", location) == [stem];
  }

  /** The same, for a file named by a stem and a recognised extension: that extension is the one replaced. */
  lemma SameDirectoryStem(cwd: seq<string>, stem: string, ext: SourceExtension, config: ModuleConfig)
    requires Paths.Normal(cwd)
    requires Paths.IsName(stem) && ext != Other
    ensures ModulePath(cwd, ".", stem + SourceSuffix(ext), config) == "./" + stem + OutputSuffix(config, ext)
  {
    var location := stem + SourceSuffix(ext);
    StemRoundTrip(stem, ext);
    SameDirectory(cwd, location, config);
  }
}
