/**
 * Header decoration of generated files (`addHeaderInfo`): every file's text is
 * prefixed with three comment lines (attribution, build version, generation date)
 * and one blank line, in the comment syntax its language calls for.
 */
module Headers {
  import Js

  const Message := "File auto-generated by xLayers.app"
  const Newline := '\n'

  /** The `kind` tag of a generated file. */
  datatype FileKind = Angular | React | Vue | WC | Html | Text

  /** A generated file as a generator returns it: text, editor language, kind. */
  datatype File = File(value: string, language: string, kind: FileKind)

  /** A generated file record; `addHeaderInfo` overwrites its `value` in place. */
  class Artifact {
    var value: string
    const language: string
    const kind: FileKind

    constructor (f: File)
      ensures value == f.value && language == f.language && kind == f.kind
    {
      value := f.value;
      language := f.language;
      kind := f.kind;
    }
  }

  /** The opening and closing marker of a comment. */
  datatype Comment = Comment(start: string, end: string)

  /** Markup comments for html, block comments for css, line comments otherwise; html is tested first. */
  function CommentStyle(language: string): (c: Comment)
    ensures Js.Occurs(language, "html") ==> c == Comment("<!--", "-->")
    ensures !Js.Occurs(language, "html") && Js.Occurs(language, "css") ==> c == Comment("/*", "*/")
    ensures !Js.Occurs(language, "html") && !Js.Occurs(language, "css") ==> c == Comment("//", "")
  {
    if Js.Includes(language, "html") then Comment("<!--", "-->")
    else if Js.Includes(language, "css") then Comment("/*", "*/")
    else Comment("//", "")
  }

  /** One header line: opening marker, space, text, space, closing marker (`HeaderLineLayout`). */
  function HeaderLine(c: Comment, text: string): (line: string)
    ensures |line| == |c.start| + |text| + |c.end| + 2
  {
    c.start + " " + text + " " + c.end
  }

  /**
   * A header line opens with the marker, holds the text between two spaces and closes
   * with the closing marker; it is a single line exactly when neither marker nor the
   * text holds a newline.
   */
  lemma HeaderLineLayout(c: Comment, text: string)
    ensures var line := HeaderLine(c, text);
            && line[..|c.start|] == c.start
            && line[|c.start|..|c.start| + 1] == " "
            && line[|c.start| + 1..|c.start| + 1 + |text|] == text
            && line[|c.start| + 1 + |text|..|c.start| + 2 + |text|] == " "
            && line[|line| - |c.end|..] == c.end
            && (Newline in line <==> Newline in c.start || Newline in text || Newline in c.end)
  {
  }

  /** The three header lines: attribution, build version, date (`HeaderLinesLayout`). */
  function HeaderLines(language: string, version: string, date: string): (lines: seq<string>)
    ensures |lines| == 3
  {
    var c := CommentStyle(language);
    [HeaderLine(c, Message), HeaderLine(c, "Build: " + version), HeaderLine(c, "Date: " + date)]
  }

  /**
   * Each header line is opened by the comment marker of the language, and none of them
   * breaks across lines unless the version or the date holds a newline.
   */
  lemma HeaderLinesLayout(language: string, version: string, date: string)
    ensures var lines := HeaderLines(language, version, date);
            && (forall i :: 0 <= i < |lines| ==> CommentStyle(language).start <= lines[i])
            && ((forall i :: 0 <= i < |lines| ==> Newline !in lines[i]) <==> Newline !in version && Newline !in date)
  {
    var c := CommentStyle(language);
    MarkersSingleLine(language);
    HeaderTextsSingleLine(c, version, date);
    HeaderLineLayout(c, Message);
    HeaderLineLayout(c, "Build: " + version);
    HeaderLineLayout(c, "Date: " + date);
  }

  /** The attribution text is one line. */
  lemma MessageSingleLine()
    ensures Newline !in Message
  {
  }

  /** No comment marker holds a newline. */
  lemma MarkersSingleLine(language: string)
    ensures Newline !in CommentStyle(language).start && Newline !in CommentStyle(language).end
  {
  }

  /** With single-line markers, the three header lines are single lines unless version or date is not. */
  lemma HeaderTextsSingleLine(c: Comment, version: string, date: string)
    requires Newline !in c.start && Newline !in c.end
    ensures var lines := [HeaderLine(c, Message), HeaderLine(c, "Build: " + version), HeaderLine(c, "Date: " + date)];
            (forall i :: 0 <= i < |lines| ==> Newline !in lines[i]) <==> Newline !in version && Newline !in date
  {
    var lines := [HeaderLine(c, Message), HeaderLine(c, "Build: " + version), HeaderLine(c, "Date: " + date)];
    HeaderLineLayout(c, Message);
    HeaderLineLayout(c, "Build: " + version);
    HeaderLineLayout(c, "Date: " + date);
    MessageSingleLine();
    if Newline in version {
      assert Newline in "Build: " + version;
      assert Newline in lines[1];
    }
    if Newline in date {
      assert Newline in "Date: " + date;
      assert Newline in lines[2];
    }
  }

  /**
   * The new `value` of one file: header lines, an empty line, the old text, joined by
   * newlines (`DecorateLayout` and `DecorateLines` state what that text is).
   */
  function Decorate(value: string, language: string, version: string, date: string): string
  {
    Js.Join(HeaderLines(language, version, date) + ["", value], Newline)
  }

  /**
   * Read line by line, a decorated text is the three header lines, one empty line,
   * then the lines of the original text, whatever that text holds.
   */
  lemma DecorateLines(value: string, language: string, version: string, date: string)
    requires Newline !in version && Newline !in date
    ensures Js.Split(Decorate(value, language, version, date), Newline) ==
              HeaderLines(language, version, date) + [""] + Js.Split(value, Newline)
  {
    HeaderLinesLayout(language, version, date);
    SplitBlankThenBody(HeaderLines(language, version, date), value);
  }

  /** A decorated text is the joined header lines, two newlines, then the old text intact. */
  lemma DecorateLayout(value: string, language: string, version: string, date: string)
    ensures Decorate(value, language, version, date) ==
              Js.Join(HeaderLines(language, version, date), Newline) + [Newline, Newline] + value
  {
    JoinBlankThenBody(HeaderLines(language, version, date), value);
  }

  /** Lines without newlines, an empty line and a body, joined then split: the lines, "", the body's lines. */
  lemma SplitBlankThenBody(lines: seq<string>, value: string)
    requires forall i :: 0 <= i < |lines| ==> Newline !in lines[i]
    ensures Js.Split(Js.Join(lines + ["", value], Newline), Newline) == lines + [""] + Js.Split(value, Newline)
  {
    assert (lines + [""]) + [value] == lines + ["", value];
    Js.SplitJoinLast(lines + [""], value, Newline);
  }

  /** Lines, an empty line and a body, joined: the joined lines, two newlines, the body. */
  lemma JoinBlankThenBody(lines: seq<string>, value: string)
    requires |lines| >= 1
    ensures Js.Join(lines + ["", value], Newline) == Js.Join(lines, Newline) + [Newline, Newline] + value
  {
    var head := Js.Join(lines, Newline);
    Js.JoinSnoc(lines, "", Newline);
    assert Js.Join(lines + [""], Newline) == head + [Newline] + "";
    Js.JoinSnoc(lines + [""], value, Newline);
    assert lines + [""] + [value] == lines + ["", value];
    TwoSeparators(head, value);
  }

  lemma TwoSeparators(head: string, value: string)
    ensures head + [Newline] + "" + [Newline] + value == head + [Newline, Newline] + value
  {
  }

  /** With line comments each header line is `// text ` and keeps a trailing space. */
  lemma LineCommentHeader(language: string, text: string)
    requires !Js.Occurs(language, "html") && !Js.Occurs(language, "css")
    ensures HeaderLine(CommentStyle(language), text) == "// " + text + " "
  {
  }

  /**
   * The value an artifact object ends with after `addHeaderInfo` has processed the
   * first `n` entries of `content`, starting from `v`: decorated once per entry that
   * is this very object, each time with the clock reading for that entry.
   */
  ghost function HeaderedValue(
    content: seq<Artifact>, a: Artifact, n: nat, v: string, version: string, dates: nat -> string): (r: string)
    requires n <= |content|
    ensures a !in content[..n] ==> r == v
  {
    if n == 0 then v
    else
      var w := HeaderedValue(content, a, n - 1, v, version, dates);
      if content[n - 1] == a then Decorate(w, a.language, version, dates(n - 1)) else w
  }

  /** An object listed once, at `j`, is decorated once, with the date read for entry `j`. */
  lemma {:induction false} HeaderedOnce(
    content: seq<Artifact>, j: nat, n: nat, v: string, version: string, dates: nat -> string)
    requires j < |content| && n <= |content|
    requires forall i :: 0 <= i < |content| && i != j ==> content[i] != content[j]
    ensures HeaderedValue(content, content[j], n, v, version, dates) ==
              if n <= j then v else Decorate(v, content[j].language, version, dates(j))
  {
    if n > 0 {
      HeaderedOnce(content, j, n - 1, v, version, dates);
      var w := HeaderedValue(content, content[j], n - 1, v, version, dates);
      if n - 1 == j {
        assert w == v;
      } else {
        assert content[n - 1] != content[j];
        assert HeaderedValue(content, content[j], n, v, version, dates) == w;
      }
    }
  }

  /**
   * An object listed at exactly two positions `i < j` is decorated twice, once per
   * entry: first with the date read for entry `i`, then with the one read for `j`.
   */
  lemma {:induction false} HeaderedTwice(
    content: seq<Artifact>, i: nat, j: nat, n: nat, v: string, version: string, dates: nat -> string)
    requires i < j < |content| && n <= |content|
    requires content[i] == content[j]
    requires forall m :: 0 <= m < |content| && m != i && m != j ==> content[m] != content[i]
    ensures HeaderedValue(content, content[i], n, v, version, dates) ==
              var a := content[i];
              if n <= i then v
              else if n <= j then Decorate(v, a.language, version, dates(i))
              else Decorate(Decorate(v, a.language, version, dates(i)), a.language, version, dates(j))
  {
    if n > 0 {
      HeaderedTwice(content, i, j, n - 1, v, version, dates);
      var a := content[i];
      var w := HeaderedValue(content, a, n - 1, v, version, dates);
      if n - 1 == i || n - 1 == j {
        assert content[n - 1] == a;
        assert HeaderedValue(content, a, n, v, version, dates) == Decorate(w, a.language, version, dates(n - 1));
      } else {
        assert content[n - 1] != a;
        assert HeaderedValue(content, a, n, v, version, dates) == w;
      }
    }
  }
}
