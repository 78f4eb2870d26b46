/**
 * `CodeGenService`: holds the most recently annotated page and, on request, runs
 * the generator of one target framework on it and decorates every file it returns.
 *
 * The four framework generators are not modelled: each is a function from the
 * cached page (absent before the first page arrives) to the files it returns.
 */
module CodeGen {
  import opened Wrappers
  import opened Layers
  import ClassNames
  import opened Headers

  /** `CodeGenService.Kind`: the numbers callers pass to `generate`. */
  const UnknownKind := 0
  const AngularKind := 1
  const ReactKind := 2
  const VueKind := 3
  const WCKind := 4

  /** The frameworks `generate` can dispatch to. */
  datatype Target = AngularTarget | ReactTarget | VueTarget | WCTarget

  function Code(t: Target): int
  {
    match t
    case AngularTarget => AngularKind
    case ReactTarget => ReactKind
    case VueTarget => VueKind
    case WCTarget => WCKind
  }

  /** The framework a kind number selects; `Unknown` and every other number select none. */
  function KindOf(kind: int): (r: Option<Target>)
    ensures r.Some? <==> kind in {AngularKind, ReactKind, VueKind, WCKind}
    ensures r.Some? ==> Code(r.value) == kind
  {
    if kind == AngularKind then Some(AngularTarget)
    else if kind == ReactKind then Some(ReactTarget)
    else if kind == VueKind then Some(VueTarget)
    else if kind == WCKind then Some(WCTarget)
    else None
  }

  /** Every framework is selected by its own kind number and by no other. */
  lemma KindOfCode(t: Target, kind: int)
    ensures KindOf(Code(t)) == Some(t)
    ensures KindOf(kind) == Some(t) <==> kind == Code(t)
  {
  }

  /** A framework generator: from the cached page, or its absence, to generated files. */
  type Generator = Option<Tree> -> seq<File>

  /** `file` is `source` with only its text replaced by the decorated text. */
  ghost predicate Emitted(file: Artifact, source: File, version: string, date: string)
    reads file
  {
    && file.language == source.language
    && file.kind == source.kind
    && file.value == Decorate(source.value, source.language, version, date)
  }

  class CodeGenService {
    /** The annotated current page; null until the first non-null page arrives. */
    var ast: Layer?
    const angular: Generator
    const react: Generator
    const vue: Generator
    const wc: Generator

    ghost predicate Valid()
      reads this
    {
      ast != null ==> ast.Valid()
    }

    /** The tree the cached page holds now, as the generators receive it. */
    function Page(): Option<Tree>
      requires Valid()
      reads this, if ast != null then ast.Repr else {}
    {
      if ast == null then None else Some(ast.Value())
    }

    function GeneratorFor(t: Target): Generator
    {
      match t
      case AngularTarget => angular
      case ReactTarget => react
      case VueTarget => vue
      case WCTarget => wc
    }

    constructor (angular: Generator, react: Generator, vue: Generator, wc: Generator)
      ensures Valid() && ast == null
      ensures this.angular == angular && this.react == react && this.vue == vue && this.wc == wc
    {
      this.angular := angular;
      this.react := react;
      this.vue := vue;
      this.wc := wc;
      ast := null;
    }

    /**
     * The current-page subscription: a non-null page is annotated in place and
     * becomes the cached page; a null page leaves the cached page as it was.
     */
    method SetPage(currentPage: Layer?, draws: nat -> string)
      requires Valid()
      requires currentPage != null ==> currentPage.Valid()
      modifies this, if currentPage != null then currentPage.Repr else {}
      ensures Valid()
      ensures currentPage == null ==> ast == old(ast) && Page() == old(Page())
      ensures currentPage != null ==>
                && ast == currentPage
                && Page() == Some(ClassNames.AnnotatedPage(old(currentPage.Value()), draws, 0).0)
    {
      if currentPage != null {
        ast := GenerateCssClassNames(currentPage, draws);
      }
    }

    /** `generateCssClassNames(ast)`: annotates the page in place and returns it. */
    static method GenerateCssClassNames(page: Layer, draws: nat -> string) returns (r: Layer)
      requires page.Valid()
      modifies page.Repr
      ensures r == page
      ensures page.Value() == ClassNames.AnnotatedPage(old(page.Value()), draws, 0).0
    {
      var drawn;
      r, drawn := ClassNames.AddCssClassNames(page, draws, 0);
    }

    /**
     * `addHeaderInfo(content)`: overwrites the text of every listed file record, in
     * list order, reading the clock once per entry (`dates(i)` for entry `i`), and
     * returns the same records in the same order. A record listed twice is decorated
     * twice.
     */
    static method AddHeaderInfo(content: seq<Artifact>, version: string, dates: nat -> string)
      returns (files: seq<Artifact>)
      modifies set a | a in content
      ensures files == content
      ensures forall a :: a in content ==>
                a.value == HeaderedValue(content, a, |content|, old(a.value), version, dates)
    {
      var i := 0;
      while i < |content|
        invariant 0 <= i <= |content|
        invariant forall a :: a in content ==>
                    a.value == HeaderedValue(content, a, i, old(a.value), version, dates)
      {
        var file := content[i];
        file.value := Decorate(file.value, file.language, version, dates(i));
        i := i + 1;
      }
      files := content;
    }

    /**
     * `generate(kind)`: for the four framework kinds, the files that framework's
     * generator returns for the cached page, each with its text decorated, in the
     * generator's order; for any other kind, no result at all.
     */
    method Generate(kind: int, version: string, dates: nat -> string) returns (r: Option<seq<Artifact>>)
      requires Valid()
      ensures r.None? <==> KindOf(kind).None?
      ensures r.Some? ==>
                var source := GeneratorFor(KindOf(kind).value)(Page());
                && |r.value| == |source|
                && (forall i :: 0 <= i < |source| ==> fresh(r.value[i]))
                && (forall i :: 0 <= i < |source| ==> Emitted(r.value[i], source[i], version, dates(i)))
    {
      var generator: Generator;
      if kind == AngularKind {
        generator := angular;
      } else if kind == ReactKind {
        generator := react;
      } else if kind == VueKind {
        generator := vue;
      } else if kind == WCKind {
        generator := wc;
      } else {
        return None;
      }
      var source := generator(Page());
      var records := NewArtifacts(source);
      var files := AddHeaderInfo(records, version, dates);
      forall i | 0 <= i < |source|
        ensures Emitted(files[i], source[i], version, dates(i))
      {
        HeaderedOnce(records, i, |records|, source[i].value, version, dates);
      }
      r := Some(files);
    }

    /** The generator's result as new, distinct file records (the object literals it builds). */
    static method NewArtifacts(source: seq<File>) returns (records: seq<Artifact>)
      ensures |records| == |source|
      ensures forall i :: 0 <= i < |source| ==> fresh(records[i])
      ensures forall i, j :: 0 <= i < j < |source| ==> records[i] != records[j]
      ensures forall i :: 0 <= i < |source| ==>
                records[i].value == source[i].value && records[i].language == source[i].language
                && records[i].kind == source[i].kind
    {
      records := [];
      while |records| < |source|
        invariant |records| <= |source|
        invariant forall i :: 0 <= i < |records| ==> fresh(records[i])
        invariant forall i, j :: 0 <= i < j < |records| ==> records[i] != records[j]
        invariant forall i :: 0 <= i < |records| ==>
                    records[i].value == source[i].value && records[i].language == source[i].language
                    && records[i].kind == source[i].kind
      {
        var record := new Artifact(source[|records|]);
        records := records + [record];
      }
    }
  }
}
