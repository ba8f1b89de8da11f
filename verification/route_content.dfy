/**
 The controller part of the rendering context handed to the routes template,
 and the text produced by the template that lists every controller's module
 path in order (`{{#each controllers}}{{modulePath}}{{/each}}`). Each
 controller record keeps its name and route path as given and gains the
 module path computed for its location.
 */
module RouteContent {
  import Paths
  import opened ModulePathResolver

  /** A controller as extracted from the source; its methods are not part of this model. */
  datatype Controller = Controller(location: string, name: string, path: string)

  /** A controller as the template sees it. */
  datatype ControllerContext = ControllerContext(modulePath: string, name: string, path: string)

  /** The generator settings this part reads. */
  datatype RouteOptions = RouteOptions(routesDir: string, config: ModuleConfig)

  /** The context record for one controller. */
  function ContextOf(cwd: seq<string>, options: RouteOptions, c: Controller): (r: ControllerContext)
    requires Paths.Normal(cwd)
    ensures r.name == c.name && r.path == c.path
    ensures r.modulePath == ModulePath(cwd, options.routesDir, c.location, options.config)
    ensures |r.modulePath| >= 2 && r.modulePath[..2] == "./"
  {
    ControllerContext(ModulePath(cwd, options.routesDir, c.location, options.config), c.name, c.path)
  }

  /** One context record per controller, in the same order, each depending on its own controller only. */
  function BuildContexts(cwd: seq<string>, options: RouteOptions, controllers: seq<Controller>): (r: seq<ControllerContext>)
    requires Paths.Normal(cwd)
    ensures |r| == |controllers|
    ensures forall i :: 0 <= i < |r| ==> r[i] == ContextOf(cwd, options, controllers[i])
  {
    seq(|controllers|, i requires 0 <= i < |controllers| => ContextOf(cwd, options, controllers[i]))
  }

  /** The text of the module-path listing template: every module path, in order, with nothing between. */
  function RenderModulePaths(contexts: seq<ControllerContext>): (text: string)
    ensures |contexts| == 0 ==> text == ""
    ensures |contexts| == 1 ==> text == contexts[0].modulePath
  {
    if |contexts| == 0 then "" else contexts[0].modulePath + RenderModulePaths(contexts[1..])
  }

  /** Rendering a list of controllers renders each part in turn. */
  lemma {:induction false} RenderConcat(a: seq<ControllerContext>, b: seq<ControllerContext>)
    ensures RenderModulePaths(a + b) == RenderModulePaths(a) + RenderModulePaths(b)
    decreases |a|
  {
    if |a| > 0 {
      assert (a + b)[0] == a[0];
      assert (a + b)[1..] == a[1..] + b;
      RenderConcat(a[1..], b);
    } else {
      assert a + b == b;
    }
  }

  /** `buildContent` with the module-path listing template, over the given controllers. */
  function BuildContent(cwd: seq<string>, options: RouteOptions, controllers: seq<Controller>): (text: string)
    requires Paths.Normal(cwd)
    ensures |controllers| == 1 ==> text == ModulePath(cwd, options.routesDir, controllers[0].location, options.config)
    ensures |controllers| > 0 ==> |text| >= 2 && text[..2] == "./"
  {
    var contexts := BuildContexts(cwd, options, controllers);
    var text := RenderModulePaths(contexts);
    assert |contexts| > 0 ==> text == contexts[0].modulePath + RenderModulePaths(contexts[1..]);
    assert |contexts| == 1 ==> contexts[1..] == [] && RenderModulePaths(contexts[1..]) == "";
    text
  }

  /** Controllers are listed independently and in order: the listing of `a + b` is that of `a`, then that of `b`. */
  lemma BuildContentConcat(cwd: seq<string>, options: RouteOptions, a: seq<Controller>, b: seq<Controller>)
    requires Paths.Normal(cwd)
    ensures BuildContent(cwd, options, a + b) == BuildContent(cwd, options, a) + BuildContent(cwd, options, b)
  {
    var ca := BuildContexts(cwd, options, a);
    var cb := BuildContexts(cwd, options, b);
    var cab := BuildContexts(cwd, options, a + b);
    assert cab == ca + cb by {
      forall i | 0 <= i < |cab| ensures cab[i] == (ca + cb)[i] {
        if i < |a| { assert (a + b)[i] == a[i]; } else { assert (a + b)[i] == b[i - |a|]; }
      }
    }
    RenderConcat(ca, cb);
  }

  /** The options of the module-path tests: routes in ".", with the given module settings. */
  function TestOptions(esm: bool, rewrite: bool): RouteOptions {
    RouteOptions(".", ModuleConfig(esm, rewrite))
  }

  /** A single controller at `location` with empty name and path. */
  function OneController(location: string): seq<Controller> {
    [Controller(location, "", "")]
  }

  /**
   A single controller in the routes directory "." whose file is `stem` plus a
   recognised extension is listed as "./", the stem, and the extension the
   module-system table gives; `location` and `expected` name those strings.
   */
  lemma ListsSameDirectoryController(cwd: seq<string>, stem: string, ext: SourceExtension, config: ModuleConfig,
                                     location: string, expected: string)
    requires Paths.Normal(cwd)
    requires Paths.IsName(stem) && ext != Other
    requires location == stem + SourceSuffix(ext)
    requires expected == "./" + stem + OutputSuffix(config, ext)
    ensures BuildContent(cwd, RouteOptions(".", config), OneController(location)) == expected
  {
    SameDirectoryStem(cwd, stem, ext, config);
  }

  /** Only the trailing ".ts" is removed; the ".ts" inside the name stays. */
  lemma StripsTrailingTsOnly(cwd: seq<string>)
    requires Paths.Normal(cwd)
    ensures BuildContent(cwd, TestOptions(false, false), OneController("controllerWith.tsInPath.ts")) == "./controllerWith.tsInPath"
  {
    ListsSameDirectoryController(cwd, "controllerWith.tsInPath", Ts, ModuleConfig(false, false), "controllerWith.tsInPath.ts", "./controllerWith.tsInPath");
  }

  /** ESM without rewriting: ".ts" becomes ".js". */
  lemma EsmTsGivesJs(cwd: seq<string>)
    requires Paths.Normal(cwd)
    ensures BuildContent(cwd, TestOptions(true, false), OneController("controller.ts")) == "./controller.js"
  {
    ListsSameDirectoryController(cwd, "controller", Ts, ModuleConfig(true, false), "controller.ts", "./controller.js");
  }

  /** ESM without rewriting: ".mts" becomes ".mjs". */
  lemma EsmMtsGivesMjs(cwd: seq<string>)
    requires Paths.Normal(cwd)
    ensures BuildContent(cwd, TestOptions(true, false), OneController("controller.mts")) == "./controller.mjs"
  {
    ListsSameDirectoryController(cwd, "controller", Mts, ModuleConfig(true, false), "controller.mts", "./controller.mjs");
  }

  /** ESM without rewriting: ".cts" becomes ".cjs". */
  lemma EsmCtsGivesCjs(cwd: seq<string>)
    requires Paths.Normal(cwd)
    ensures BuildContent(cwd, TestOptions(true, false), OneController("controller.cts")) == "./controller.cjs"
  {
    ListsSameDirectoryController(cwd, "controller", Cts, ModuleConfig(true, false), "controller.cts", "./controller.cjs");
  }

  /** ESM with rewriting keeps ".ts". */
  lemma RewriteKeepsTs(cwd: seq<string>)
    requires Paths.Normal(cwd)
    ensures BuildContent(cwd, TestOptions(true, true), OneController("controller.ts")) == "./controller.ts"
  {
    ListsSameDirectoryController(cwd, "controller", Ts, ModuleConfig(true, true), "controller.ts", "./controller.ts");
  }

  /** ESM with rewriting keeps ".mts". */
  lemma RewriteKeepsMts(cwd: seq<string>)
    requires Paths.Normal(cwd)
    ensures BuildContent(cwd, TestOptions(true, true), OneController("controller.mts")) == "./controller.mts"
  {
    ListsSameDirectoryController(cwd, "controller", Mts, ModuleConfig(true, true), "controller.mts", "./controller.mts");
  }

  /**
   Only one extension is removed: a file named "a.ts.ts" is listed as "./a.ts"
   outside ESM, so a specifier can still end in ".ts" without the rewrite flag.
   */
  lemma DoubleExtensionKeepsOne(cwd: seq<string>)
    requires Paths.Normal(cwd)
    ensures BuildContent(cwd, TestOptions(false, false), OneController("a.ts.ts")) == "./a.ts"
  {
    ListsSameDirectoryController(cwd, "a.ts", Ts, ModuleConfig(false, false), "a.ts.ts", "./a.ts");
  }
}
