# xLayers code-generation service, modelled in Dafny

This project models `CodeGenService`, the facade of xLayers' code generator. The service has three parts:

- **Class-name annotation** (`generateCssClassNames`). Every time the current page changes, it walks the page's layer tree. It stamps `css__className = "xly_" + token` on every layer below the page that has a `css` block. The token is at most four characters of the base-36 text of a random number. It can be shorter, or empty, when that text is short.
- **Dispatch** (`generate`). An integer kind picks one of four framework generators: Angular, React, Vue or Web Components. That generator runs on the cached page. Any other kind gives no result.
- **Header decoration** (`addHeaderInfo`). Every generated file gets three comment lines at the top: attribution, build version and date. A blank line follows, then the original text. The comment syntax depends on the file's language.

Files:

- `wrappers.dfy`: `Option`, which stands for JavaScript's `undefined`/`null` versus a value.
- `js.dfy`: the JavaScript built-ins the service uses: `substring`, `includes` and `join`. It also has a one-character `split`, used as the reference that header layouts are stated against.
- `layers.dfy`: the layer tree. `Layer` is the object that gets mutated. It has `const` structure and a mutable `className`. `Tree` is the value a layer holds at one moment (`Value()`).
- `class_names.dfy`: the annotation pass. The pure specification is `AnnotatedPage`, `AnnotatedLayers` and `AnnotatedEntry`, over `Tree`. The in-place method is `AddCssClassNames`, with its `forEach` callback `VisitLayer`, over `Layer` objects. It is proved against that specification.
- `headers.dfy`: comment style, header lines, the decorated text, and the `Artifact` file record whose `value` is overwritten.
- `codegen_service.dfy`: the `CodeGenService` class. It holds the cached page `ast`, the subscription callback `SetPage`, `GenerateCssClassNames`, `AddHeaderInfo` and `Generate`.

Inputs the code reads from the environment are parameters:

- The random numbers are `draws: nat -> string`. `draws(k)` is the text of `Math.random().toString(36)` for the k-th number drawn in one annotation pass.
- The clock is `dates: nat -> string`. `dates(i)` is what `new Date().toLocaleString()` returned while file `i` was being decorated.
- The build version is `version`.
- The four generators are constant fields of type `Option<Tree> -> seq<File>`.

## Model

| member | source | states |
|---|---|---|
| `Js.Substring` | src/app/editor/code-editor/editor-container/codegen/codegen.service.ts:80-82 | `substring` clamps both indices to the text. Its result has at most `end - start` characters. In-range indices give exactly that slice. An end past the text gives the rest of the text from `start`. A start before the text gives the prefix up to `end`. Both indices past the end give the empty text |
| `Js.SubstringSwap` | src/app/editor/code-editor/editor-container/codegen/codegen.service.ts:80-82 | indices given in the wrong order are swapped: `substring(a, b)` equals `substring(b, a)` |
| `Js.Includes` | src/app/editor/code-editor/editor-container/codegen/codegen.service.ts:58-61 | `includes` is true exactly when the searched text occurs at some index |
| `Js.Join` | src/app/editor/code-editor/editor-container/codegen/codegen.service.ts:72 | `join` of no pieces is the empty text, and of one piece is that piece (its full meaning is the `SplitJoin` round trip) |
| `Js.JoinFirst` | src/app/editor/code-editor/editor-container/codegen/codegen.service.ts:72 | a joined text starts with the first piece, followed by the separator when more pieces follow |
| `Js.SplitJoin` | src/app/editor/code-editor/editor-container/codegen/codegen.service.ts:66-72 | joining lines that contain no separator and then splitting gives back the same lines |
| `Js.SplitJoinLast` | src/app/editor/code-editor/editor-container/codegen/codegen.service.ts:66-72 | when only the last joined piece may contain newlines, the split text is the other pieces followed by the lines of the last piece |
| `ClassNames.RandomString` | src/app/editor/code-editor/editor-container/codegen/codegen.service.ts:79-83 | the token has at most 4 characters. A draw of at least 6 characters gives characters 2 to 5. A draw of 2 to 5 characters gives everything from character 2 on (so `"0.i"` gives `"i"`). A shorter draw gives the empty token |
| `ClassNames.ClassName` | src/app/editor/code-editor/editor-container/codegen/codegen.service.ts:89 | a class name is `xly_` followed by the token of one draw, so it has 4 to 8 characters |
| `ClassNames.AnnotatedEntry` | src/app/editor/code-editor/editor-container/codegen/codegen.service.ts:87-91 | visiting one entry: when it has `css` it gets the class name of the next draw and uses that draw, otherwise its class name stays. Its id, layer class, style and child count stay. The whole subtree is specified by `EntryStampsInOrder` and `EntryKeepsShape` |
| `ClassNames.AnnotatedLayers` | src/app/editor/code-editor/editor-container/codegen/codegen.service.ts:86-92 | the `forEach` over a `layers` array returns as many entries as it was given and never moves the draw counter backwards |
| `ClassNames.AnnotatedPage` | src/app/editor/code-editor/editor-container/codegen/codegen.service.ts:85-97 | the page passed in keeps its id, layer class, style, class name and child count, and draws are only consumed, never given back. What happens below it is specified by `AnnotatedPageSpec` |
| `ClassNames.EntryKeepsShape` | src/app/editor/code-editor/editor-container/codegen/codegen.service.ts:87-91 | visiting an entry changes no id, layer class, style, child count or child order anywhere in its subtree |
| `ClassNames.LayersKeepShape` | src/app/editor/code-editor/editor-container/codegen/codegen.service.ts:86-92 | every entry of an annotated `layers` array has the same shape as the original entry at that position |
| `ClassNames.EntryStampsInOrder` | src/app/editor/code-editor/editor-container/codegen/codegen.service.ts:87-91 | an entry is stamped before its descendants. Listed in pre-order, each styled layer gets the draw numbered by the count of styled layers before it, and each unstyled layer keeps its name. One draw is used per styled layer |
| `ClassNames.LayersStampInOrder` | src/app/editor/code-editor/editor-container/codegen/codegen.service.ts:86-92 | the same pre-order stamping holds for a whole `layers` array, and the draws used are exactly its styled layers |
| `ClassNames.AnnotatedPageSpec` | src/app/editor/code-editor/editor-container/codegen/codegen.service.ts:85-97 | the page itself keeps its class name even when it has `css`. Its shape is unchanged. Its descendants are stamped in pre-order, one draw per styled descendant |
| `ClassNames.DrawsNotReused` | src/app/editor/code-editor/editor-container/codegen/codegen.service.ts:87-91 | in any listing, a styled layer is preceded by strictly fewer styled layers than any layer after it, so the draw indices `StampedAt` assigns strictly increase |
| `ClassNames.PassDrawsDistinct` | src/app/editor/code-editor/editor-container/codegen/codegen.service.ts:85-97 | in one pass over a page, two styled descendants `i < j` (in visiting order) are named from draws `p < q`. Both draws lie between the first draw of the pass and the next unused one, so no draw is used twice |
| `ClassNames.AddCssClassNames` | src/app/editor/code-editor/editor-container/codegen/codegen.service.ts:85-95 | the in-place pass returns the same root object, and the tree it leaves is `AnnotatedPage` of the tree it found |
| `ClassNames.VisitLayer` | src/app/editor/code-editor/editor-container/codegen/codegen.service.ts:87-92 | the callback leaves entry `i` holding `AnnotatedEntry` of what it held before, and leaves every sibling entry untouched |
| `Headers.CommentStyle` | src/app/editor/code-editor/editor-container/codegen/codegen.service.ts:54-64 | a language containing `html` gets `<!--`/`-->` (even when it also contains `css`). Otherwise a language containing `css` gets `/*`/`*/`. Any other language gets `//` and an empty closing marker |
| `Headers.HeaderLine` | src/app/editor/code-editor/editor-container/codegen/codegen.service.ts:67-69 | a header line is as long as both markers and the text plus two spaces. Its layout is stated by `HeaderLineLayout` |
| `Headers.HeaderLineLayout` | src/app/editor/code-editor/editor-container/codegen/codegen.service.ts:67-69 | a header line is the opening marker, a space, the text, a space and the closing marker. It holds a newline exactly when a marker or the text does |
| `Headers.HeaderLines` | src/app/editor/code-editor/editor-container/codegen/codegen.service.ts:66-69 | there are exactly three header lines: attribution, build version and date |
| `Headers.HeaderLinesLayout` | src/app/editor/code-editor/editor-container/codegen/codegen.service.ts:51-69 | every header line opens with the language's comment marker. All three are single lines exactly when the version and the date hold no newline |
| `Headers.Decorate` | src/app/editor/code-editor/editor-container/codegen/codegen.service.ts:66-72 | has no contract of its own. Its meaning is stated by `DecorateLayout` and `DecorateLines` |
| `Headers.DecorateLayout` | src/app/editor/code-editor/editor-container/codegen/codegen.service.ts:66-72 | the new text is the three header lines joined by newlines, then two newlines, then the old text unchanged |
| `Headers.DecorateLines` | src/app/editor/code-editor/editor-container/codegen/codegen.service.ts:66-72 | read line by line, the new text is the three header lines, then one empty line, then the lines of the old text |
| `Headers.LineCommentHeader` | src/app/editor/code-editor/editor-container/codegen/codegen.service.ts:55-56 | with line comments, a header line is `// text ` and keeps a trailing space |
| `Headers.HeaderedValue` | src/app/editor/code-editor/editor-container/codegen/codegen.service.ts:50-75 | the text a record holds after the `map` has handled the first `n` entries. A record not among those entries keeps its text. Its other cases are stated by `HeaderedOnce` and `HeaderedTwice` |
| `Headers.HeaderedOnce` | src/app/editor/code-editor/editor-container/codegen/codegen.service.ts:50-75 | a record that appears once in the list, at position `j`, is decorated exactly once, with the date read for entry `j` |
| `Headers.HeaderedTwice` | src/app/editor/code-editor/editor-container/codegen/codegen.service.ts:50-75 | a record that appears at exactly two positions `i < j`, anywhere in a list of any length, is decorated twice: first with the date read for entry `i`, then on top of that with the date read for entry `j` |
| `CodeGen.KindOf` | src/app/editor/code-editor/editor-container/codegen/codegen.service.ts:23-29 | a kind number selects a framework exactly when it is 1, 2, 3 or 4, and the selected framework's own number is that kind |
| `CodeGen.KindOfCode` | src/app/editor/code-editor/editor-container/codegen/codegen.service.ts:101-110 | every framework is selected by its own number and by no other number |
| `CodeGen.CodeGenService.constructor` | src/app/editor/code-editor/editor-container/codegen/codegen.service.ts:33-39 | a new service holds no page and keeps the four generators it is given |
| `CodeGen.CodeGenService.SetPage` | src/app/editor/code-editor/editor-container/codegen/codegen.service.ts:40-46 | a non-null page is annotated in place and becomes the cached page. A null page changes nothing, including the cached tree |
| `CodeGen.CodeGenService.GenerateCssClassNames` | src/app/editor/code-editor/editor-container/codegen/codegen.service.ts:78-98 | returns the page object it was given, annotated from the first draw of the pass |
| `CodeGen.CodeGenService.AddHeaderInfo` | src/app/editor/code-editor/editor-container/codegen/codegen.service.ts:49-76 | returns the same records in the same order. Each record's text is decorated once for every position where it appears in the list, in list order, with that position's date |
| `CodeGen.CodeGenService.Generate` | src/app/editor/code-editor/editor-container/codegen/codegen.service.ts:100-111 | for kinds 1 to 4, returns exactly the files of that kind's generator run on the cached page (or on no page), in order. Each file is new, keeps its language and kind, and gets a decorated text. Any other kind gives no result |

## Left out

- The four framework generators (`AngularCodeGenService`, `ReactCodeGenService`, `VueCodeGenService`, `WCCodeGenService`) are not part of this model. Each one is a function from the cached page to the files it returns. `Generate` stores those files as new, distinct records, as object literals built per call would be.
- `Math.random()` and its base-36 formatting are not modelled. The pass receives their texts as `draws`. Nothing is claimed about two class names being different: the code draws random strings and never checks for collisions.
- `new Date().toLocaleString()` and `environment.version` read the clock and the build environment. They are parameters (`dates`, `version`).
- The NGXS store and the RxJS subscription are not modelled. The callback passed to `subscribe` is the method `SetPage`, which the environment calls once per emitted page.
- `src/app/editor/viewer/lib/sketch-container.component.ts` is an Angular UI component (template, styles, store subscriptions, file drop, DOM selection, user messages) and is not part of this model.
- A layer keeps only the attributes the service itself reads (`css`, `layers`, `css__className`) plus its id and layer class. The other attributes of a design-file layer are read only by the generators.
- A missing `layers` array is modelled as an empty one; the code treats both the same way.
- `Layer.Valid()` asks that the layer objects form a tree, with no layer shared between two parents and no cycles, as a parsed design file gives. If a layer were shared, the code would stamp it once per occurrence.
- `generate` takes a JavaScript number. The model takes an integer, so fractional kinds (which also select no generator) are not represented.

## Where the code and the design description differ (the model follows the code)

- With no cached page, `generate` does not return an empty list. It passes `undefined` to the selected generator and decorates whatever comes back. The model passes `None` to the generator.
- For an unknown kind, `generate` falls off the end of the `switch` and returns `undefined`, not an empty list. The model returns `None`.
- The random token has at most four characters, not at least four. It can be shorter, or even empty, when the base-36 text of the random number is short. Class names are not guaranteed to be distinct.
- `addHeaderInfo` reads the clock once per file, so files from one call can carry different dates.
- The page passed to `generateCssClassNames` is never stamped, even when it has `css`. Only entries of a `layers` array are stamped.
