# tsoa route generator: model normalisation and controller module paths

This project models two rules of tsoa's route generator (`DefaultRouteGenerator`)
in Dafny and proves properties of them.

- **`buildModels`** turns the reference-type registry into the model dictionary
  that runtime validation consumes. For every `refObject` entry it settles the
  `additionalProperties` facet. An explicit declaration is copied through. A
  missing one is filled in from the `noImplicitAdditionalProperties` policy:
  `false` under `silently-remove-extras`. Each model is filed under its registry
  key, not its `refName`, and nothing but that facet changes.
- **`modulePath`** is the import specifier the generated routes file uses for
  each controller, as `buildContent` renders it with the template
  `{{#each controllers}}{{modulePath}}{{/each}}`. It is built in three steps.
  First the trailing `.ts`, `.mts` or `.cts` is stripped; only an end-anchored
  match counts. Then the rest is made relative to `routesDir` and prefixed with
  `./`. Last, the extension from the module-system table is appended:
  - without ESM: nothing;
  - ESM: `.js`, `.mjs` or `.cjs`;
  - ESM with `rewriteRelativeImportExtensions`: the source extension itself.

The implementation file of `DefaultRouteGenerator` is not part of this model;
the rows below cite the generator's unit tests, which pin the behaviour modelled.

Modules:

- `Models` (models.dfy) covers `buildModels`. It uses the three-state facet
  `Unset | Forbidden | Permits(Type)` and proves that no output model is `Unset`.
- `Paths` (paths.dfy) covers forward-slash paths: `split('/')` and `join`,
  resolution of a path against a working directory, and the host's
  `path.relative` over segment lists. Walking the relative path from the
  source directory arrives at the target, and the path is the direct route:
  it climbs to an ancestor, then descends, never straight back into the
  directory it just left. That route is unique and no climb-then-descend
  route is shorter.
- `ModulePathResolver` (module_path.dfy) covers the extension datatype
  `Ts | Mts | Cts | Other`, the end-anchored extension match, the extension
  table, and `ModulePath`.
- `RouteContent` (route_content.dfy) covers the per-controller template
  context, the rendered listing of module paths, and one lemma per unit test.

The host's working directory (`process.cwd()`, against which `path.relative`
resolves both paths) is a parameter `cwd`: an absolute, normalised list of
directory names. Every result for the tested same-directory case is proved
for every `cwd`.

## Model

| member | source | states |
|---|---|---|
| `Models.ResolveAdditional` | tests/unit/templating/routeGenerator.spec.ts:19-46 | The resolved facet is never `Unset`. A declared facet is returned unchanged. An undeclared one becomes `Forbidden` (`false`) under `silently-remove-extras`. |
| `Models.Normalise` | tests/unit/templating/routeGenerator.spec.ts:54-68 | One entry's model is settled and stays an object type exactly when the entry is one. It keeps its `refName` and properties, and its facet is the one `ResolveAdditional` gives, so an undeclared facet becomes `false` under `silently-remove-extras`. An already-settled entry is returned as it is. |
| `Models.BuildModels` | tests/unit/templating/routeGenerator.spec.ts:8-72 | The model keys are exactly the registry keys. Every model is settled (no `Unset`). An object entry's model is that entry with at most its `additionalProperties` facet replaced. Declared facets are preserved. Under `silently-remove-extras` an undeclared facet becomes `false` and nothing else changes. |
| `Models.SettledModelsAreFixed` | tests/unit/templating/routeGenerator.spec.ts:33-34 | A dictionary whose facets are all explicit is left unchanged by normalisation under any policy: the explicit decision wins over the policy. |
| `Models.BuildModelsIdempotent` | tests/unit/templating/routeGenerator.spec.ts:51 | Running `buildModels` on its own output gives the same dictionary. |
| `Models.BuildModelsPointwise` | tests/unit/templating/routeGenerator.spec.ts:18-40 | Replacing one registry entry changes only the model under that key. Each model depends on its own entry alone, not on other entries or on `refName`. |
| `Models.TestRegistryModels` | tests/unit/templating/routeGenerator.spec.ts:8-72 | On the test's registry and policy, the strict type's model has `additionalProperties == false`. The string dictionary keeps `Permits(string)` and is found under its own key, although its `refName` names the other type. |
| `Paths.JoinSplit` | tests/unit/templating/routeGenerator.spec.ts:81 | Joining the segments of a split path with '/' gives back the path. |
| `Paths.SplitJoin` | tests/unit/templating/routeGenerator.spec.ts:99 | Splitting a join of separator-free segments gives back the segments. This lets a loader re-read the specifier's path. |
| `Paths.Resolve` | tests/unit/templating/routeGenerator.spec.ts:81-92 | A location or `routesDir` string resolves to an absolute, normalised list of entry names. |
| `Paths.ResolveDot` | tests/unit/templating/routeGenerator.spec.ts:92 | `routesDir` `.` resolves to the working directory itself. |
| `Paths.ResolveNames` | tests/unit/templating/routeGenerator.spec.ts:81-92 | A path of entry names resolves to the working directory followed by those names. The same path behind a leading `/` resolves to those names below the root. |
| `Paths.Relative` | tests/unit/templating/routeGenerator.spec.ts:89-99 | The relative path consists only of `..` steps and entry names. Walking it from the routes directory arrives at the target location. It is a direct route: some `..` steps up to an ancestor, then names down to the target, and the first name is never the directory the last `..` left. So `x/../controller` and any climb above the deepest common ancestor are excluded. |
| `Paths.DirectRouteUnique` | tests/unit/templating/routeGenerator.spec.ts:89-99 | There is only one direct route between two locations, and it is the relative path. |
| `Paths.RelativeShortest` | tests/unit/templating/routeGenerator.spec.ts:89-99 | No path of `..` steps followed by names that reaches the target is shorter than the relative path. |
| `Paths.RelativeDescendant` | tests/unit/templating/routeGenerator.spec.ts:92-99 | For a file below the routes directory, the relative path is just the remaining names, with no `..`. |
| `ModulePathResolver.ExtensionOf` | tests/unit/templating/routeGenerator.spec.ts:76-99 | Each of `.ts`, `.mts` and `.cts` is reported exactly when the location ends with it. The matches are end-anchored and mutually exclusive, so their order does not matter. |
| `ModulePathResolver.Stem` | tests/unit/templating/routeGenerator.spec.ts:81-99 | The location is the stem followed by the recognised extension. Only that trailing extension is removed. An unrecognised extension removes nothing. |
| `ModulePathResolver.StemRoundTrip` | tests/unit/templating/routeGenerator.spec.ts:107-180 | Any name plus `.ts`/`.mts`/`.cts` is recognised as that extension, and stripping gives the name back. This holds even when the name contains `.ts` itself. |
| `ModulePathResolver.CompiledSuffix` | tests/unit/templating/routeGenerator.spec.ts:126-180 | The ESM output extension is the source extension with its trailing `ts` replaced by `js`: `.ts`→`.js`, `.mts`→`.mjs`, `.cts`→`.cjs`. |
| `ModulePathResolver.OutputSuffix` | tests/unit/templating/routeGenerator.spec.ts:99-237 | The module-system table. Tested cells: without ESM `.ts` gets nothing; with ESM `.ts`→`.js`, `.mts`→`.mjs`, `.cts`→`.cjs`; with ESM and rewriting `.ts`→`.ts`, `.mts`→`.mts`. Untested cells (see "Left out"): without ESM `.mts` and `.cts` get nothing; with ESM and rewriting `.cts`→`.cts`. Under ESM the appended extension is empty exactly when the source extension is not recognised. |
| `ModulePathResolver.OutputSuffixDistinguishes` | tests/unit/templating/routeGenerator.spec.ts:102-237 | Under ESM, different source extensions never get the same appended extension, with or without rewriting. |
| `ModulePathResolver.NoSourceSuffixWithoutRewrite` | tests/unit/templating/routeGenerator.spec.ts:99-180 | Unless both ESM and rewriting are on, the appended extension is one of nothing, `.js`, `.mjs` or `.cjs`, and never a source extension. |
| `ModulePathResolver.Specifier` | tests/unit/templating/routeGenerator.spec.ts:99 | A specifier always begins with `./` and is never a bare name. |
| `ModulePathResolver.SpecifierResolves` | tests/unit/templating/routeGenerator.spec.ts:97-99 | Resolving the specifier from the routes directory walks exactly the relative path. The leading `./` and an empty path add no steps. |
| `ModulePathResolver.ImportPath` | tests/unit/templating/routeGenerator.spec.ts:81-92 | Walking the relative path from `routesDir` reaches the controller's location without its extension, by the direct route. |
| `ModulePathResolver.ModulePath` | tests/unit/templating/routeGenerator.spec.ts:76-237 | The module path begins with `./`. It is a base followed by the table's extension, and the base, resolved from `routesDir`, names the controller's file without its source extension. The base is `./` followed by the direct route from `routesDir` to that file. |
| `ModulePathResolver.SameDirectory` | tests/unit/templating/routeGenerator.spec.ts:81-99 | For a controller file in routes directory `.`, the module path is `./`, the file name without its trailing source extension, then the table's extension, for every working directory. |
| `RouteContent.ContextOf` | tests/unit/templating/routeGenerator.spec.ts:80-85 | A controller's template record keeps its name and path, and its `modulePath` field is the module path of the controller's location under the given `routesDir` and module settings, so it starts with `./`. |
| `RouteContent.BuildContexts` | tests/unit/templating/routeGenerator.spec.ts:79-86 | There is one template record per controller, in order, and each is computed from its own controller. |
| `RouteContent.RenderModulePaths` | tests/unit/templating/routeGenerator.spec.ts:97 | The listing template `{{#each controllers}}{{modulePath}}{{/each}}`: no records render as nothing, and one record renders as exactly its module path. Together with `RenderConcat` this fixes the listing as the concatenation of the module paths in order. |
| `RouteContent.RenderConcat` | tests/unit/templating/routeGenerator.spec.ts:97 | Rendering the module-path listing over a concatenation of records renders each part in turn. |
| `RouteContent.BuildContent` | tests/unit/templating/routeGenerator.spec.ts:97-99 | With one controller, the rendered listing is exactly that controller's module path. A non-empty listing starts with `./`. |
| `RouteContent.BuildContentConcat` | tests/unit/templating/routeGenerator.spec.ts:97 | The listing for `a + b` is the listing for `a` followed by the listing for `b`. |
| `RouteContent.ListsSameDirectoryController` | tests/unit/templating/routeGenerator.spec.ts:76-237 | A lone controller in `.` named stem plus extension renders as `./`, the stem, and the table's extension. |
| `RouteContent.StripsTrailingTsOnly` | tests/unit/templating/routeGenerator.spec.ts:76-100 | `controllerWith.tsInPath.ts`, without ESM, renders as `./controllerWith.tsInPath`. |
| `RouteContent.EsmTsGivesJs` | tests/unit/templating/routeGenerator.spec.ts:102-127 | `controller.ts` with ESM renders as `./controller.js`. |
| `RouteContent.EsmMtsGivesMjs` | tests/unit/templating/routeGenerator.spec.ts:129-154 | `controller.mts` with ESM renders as `./controller.mjs`. |
| `RouteContent.EsmCtsGivesCjs` | tests/unit/templating/routeGenerator.spec.ts:156-181 | `controller.cts` with ESM renders as `./controller.cjs`. |
| `RouteContent.RewriteKeepsTs` | tests/unit/templating/routeGenerator.spec.ts:183-209 | `controller.ts` with ESM and rewriting renders as `./controller.ts`. |
| `RouteContent.RewriteKeepsMts` | tests/unit/templating/routeGenerator.spec.ts:211-237 | `controller.mts` with ESM and rewriting renders as `./controller.mts`. |
| `RouteContent.DoubleExtensionKeepsOne` | tests/unit/templating/routeGenerator.spec.ts:76-99 | Only one trailing extension is removed: `a.ts.ts` without ESM renders as `./a.ts`. |

## Left out

- The template engine behind `buildContent`. The rendered text is modelled only for the listing template `{{#each controllers}}{{modulePath}}{{/each}}`, as the concatenation of module paths in controller order.
- Host path semantics beyond POSIX. Windows separators and drive letters, the backslash-to-slash rewrite, and the "different volume" configuration error cannot arise with a single root and `/` separators. Existence checks on the filesystem are not modelled either.
- The rest of the generator's inputs and outputs. The options `bodyCoercion` and `entryFile`, and controller `methods`, are not modelled. So are the normalisation of a controller's route `path`, property `validators` and `deprecated` flags, and the conversion of properties into a property-schema dictionary. Name and path are carried unchanged; properties are carried as a list.
- Non-object registry entries (enums, unions, aliases) are carried through unchanged as `RefOther`. Their own model schemas are not modelled, and no test exercises them.
- Missing type references. A generator would fail when an entry references a type name absent from the registry; types are opaque here, so no such check is modelled.
- Models.ResolveAdditional: tsoa's tests pin only `silently-remove-extras`. The body chooses `false` under `throw-on-extras` and "any value" under `ignore`; the contracts state only that the result is never `Unset` for those two policies.
- ModulePathResolver.OutputSuffix: three cells of the extension table are not pinned by a test: non-ESM `.mts`/`.cts` (the model appends nothing, as for `.ts`) and ESM-with-rewrite `.cts` (the model keeps `.cts`, as for `.ts` and `.mts`). A file with none of the three extensions is passed through unchanged, which is the model's choice too.
- ModulePathResolver.Specifier: the specifier is always `./` followed by the relative path, so a controller above the routes directory gets `./../x` where a generator might write `../x`. The tests only cover controllers in the routes directory, where both readings agree; both resolve to the same file.
- No claim is made that a module path never contains `.ts`/`.mts`/`.cts` without the rewrite flag. Because only one extension is stripped, `a.ts.ts` gives `./a.ts` (`RouteContent.DoubleExtensionKeepsOne`). What does hold is `ModulePathResolver.NoSourceSuffixWithoutRewrite`: the appended extension is never a source extension.
