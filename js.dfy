/**
 * The few JavaScript string built-ins the code-generation service relies on,
 * written out with the semantics ECMAScript gives them: `String.prototype.substring`,
 * `String.prototype.includes` and `Array.prototype.join`. `Split` is the
 * one-character `String.prototype.split`; the service does not call it, it is the
 * reference used to state what a joined text is made of, line by line.
 */
module Js {

  /** `s.substring(start, end)`: both indices clamped to [0, |s|], swapped when out of order. */
  function Substring(s: string, start: int, end: int): (r: string)
    ensures start <= end ==> |r| <= end - start
    ensures 0 <= start <= end <= |s| ==> r == s[start..end]
    ensures 0 <= start <= |s| <= end ==> r == s[start..]
    ensures start <= 0 <= end <= |s| ==> r == s[..end]
    ensures start <= 0 && |s| <= end ==> r == s
    ensures |s| <= start && |s| <= end ==> r == ""
    ensures start <= 0 && end <= 0 ==> r == ""
  {
    var a := Clamp(start, |s|);
    var b := Clamp(end, |s|);
    if a <= b then s[a..b] else s[b..a]
  }

  /** Indices given out of order are swapped: `s.substring(6, 2) == s.substring(2, 6)`. */
  lemma SubstringSwap(s: string, start: int, end: int)
    ensures Substring(s, start, end) == Substring(s, end, start)
  {
  }

  function Clamp(i: int, len: nat): (r: nat)
    ensures r <= len
  {
    if i < 0 then 0 else if i > len then len else i
  }

  /** `sub` starts at index `i` of `s`. */
  ghost predicate OccursAt(s: string, sub: string, i: int)
  {
    0 <= i <= |s| - |sub| && s[i..i + |sub|] == sub
  }

  /** `sub` occurs somewhere in `s` (the reference definition `Includes` is checked against). */
  ghost predicate Occurs(s: string, sub: string)
  {
    exists i :: OccursAt(s, sub, i)
  }

  /** `s.includes(sub)`, searching from the left one position at a time. */
  function Includes(s: string, sub: string): (r: bool)
    ensures r <==> Occurs(s, sub)
  {
    if |sub| <= |s| && s[..|sub|] == sub then
      assert OccursAt(s, sub, 0);
      true
    else if |s| <= |sub| then
      NoRoom(s, sub);
      false
    else
      OccursInTail(s, sub);
      Includes(s[1..], sub)
  }

  /** Where `sub` does not start `s` and fills no more of it, it occurs nowhere. */
  lemma NoRoom(s: string, sub: string)
    requires |s| <= |sub| && s[..|s|] != sub
    ensures !Occurs(s, sub)
  {
    forall i
      ensures !OccursAt(s, sub, i)
    {
      if 0 <= i <= |s| - |sub| {
        assert s[i..i + |sub|] == s[..|s|];
      }
    }
  }

  /** Where `sub` does not start `s`, it occurs in `s` exactly when it occurs after the first character. */
  lemma OccursInTail(s: string, sub: string)
    requires |sub| < |s| && s[..|sub|] != sub
    ensures Occurs(s, sub) <==> Occurs(s[1..], sub)
  {
    if Occurs(s[1..], sub) {
      var i :| OccursAt(s[1..], sub, i);
      assert s[1..][i..i + |sub|] == s[i + 1..i + 1 + |sub|];
      assert OccursAt(s, sub, i + 1);
    }
    if Occurs(s, sub) {
      var i :| OccursAt(s, sub, i);
      assert i != 0;
      assert s[1..][i - 1..i - 1 + |sub|] == s[i..i + |sub|];
      assert OccursAt(s[1..], sub, i - 1);
    }
  }

  /** `parts.join(sep)` for a one-character separator. */
  function Join(parts: seq<string>, sep: char): (r: string)
    ensures |parts| == 0 ==> r == ""
    ensures |parts| == 1 ==> r == parts[0]
  {
    if |parts| == 0 then ""
    else if |parts| == 1 then parts[0]
    else parts[0] + [sep] + Join(parts[1..], sep)
  }

  /** A joined text opens with the first piece, followed by a separator when more pieces follow. */
  lemma JoinFirst(parts: seq<string>, sep: char)
    requires |parts| >= 1
    ensures parts[0] <= Join(parts, sep)
    ensures |parts| >= 2 ==> parts[0] + [sep] <= Join(parts, sep)
  {
  }

  /** `s.split(sep)` for a one-character separator: the pieces between separators, never empty. */
  function Split(s: string, sep: char): (r: seq<string>)
    ensures |r| >= 1
  {
    if s == [] then [""]
    else if s[0] == sep then [""] + Split(s[1..], sep)
    else
      var rest := Split(s[1..], sep);
      [[s[0]] + rest[0]] + rest[1..]
  }

  /** A text without the separator splits into itself. */
  lemma {:induction false} SplitNoSeparator(s: string, sep: char)
    requires sep !in s
    ensures Split(s, sep) == [s]
  {
    if s != [] {
      SplitNoSeparator(s[1..], sep);
      assert [s[0]] + s[1..] == s;
    }
  }

  /** A first character that is not the separator joins the first piece of the rest. */
  lemma SplitCons(c: char, s: string, sep: char)
    requires c != sep
    ensures Split([c] + s, sep) == [[c] + Split(s, sep)[0]] + Split(s, sep)[1..]
  {
    assert ([c] + s)[1..] == s;
  }

  /** A leading separator ends an empty first piece. */
  lemma SplitSep(s: string, sep: char)
    ensures Split([sep] + s, sep) == [""] + Split(s, sep)
  {
    assert ([sep] + s)[1..] == s;
  }

  /** One more leading character changes the split of two texts alike. */
  lemma SplitPrepend(c: char, rest: string, tail: string, more: seq<string>, sep: char)
    requires Split(tail, sep) == Split(rest, sep) + more
    ensures Split([c] + tail, sep) == Split([c] + rest, sep) + more
  {
    if c == sep {
      SplitSep(tail, sep);
      SplitSep(rest, sep);
    } else {
      SplitCons(c, tail, sep);
      SplitCons(c, rest, sep);
      ExtendFirst([c], Split(rest, sep), more);
    }
  }

  /** Extending the first piece of a list commutes with appending more pieces. */
  lemma ExtendFirst(x: string, front: seq<string>, more: seq<string>)
    requires |front| >= 1
    ensures [x + (front + more)[0]] + (front + more)[1..] == [x + front[0]] + front[1..] + more
  {
    assert (front + more)[1..] == front[1..] + more;
  }

  /** Splitting at one separator splits the two sides independently. */
  lemma {:induction false} SplitAround(a: string, b: string, sep: char)
    ensures Split(a + [sep] + b, sep) == Split(a, sep) + Split(b, sep)
  {
    if a == [] {
      assert a + [sep] + b == [sep] + b;
      SplitSep(b, sep);
    } else {
      SplitAround(a[1..], b, sep);
      SplitPrepend(a[0], a[1..], a[1..] + [sep] + b, Split(b, sep), sep);
      assert a + [sep] + b == [a[0]] + (a[1..] + [sep] + b);
      assert a == [a[0]] + a[1..];
    }
  }

  /** Joining lines that hold no separator and splitting again gives the lines back. */
  lemma {:induction false} SplitJoin(parts: seq<string>, sep: char)
    requires |parts| >= 1
    requires forall i :: 0 <= i < |parts| ==> sep !in parts[i]
    ensures Split(Join(parts, sep), sep) == parts
  {
    if |parts| == 1 {
      SplitNoSeparator(parts[0], sep);
    } else {
      SplitJoin(parts[1..], sep);
      SplitAround(parts[0], Join(parts[1..], sep), sep);
      SplitNoSeparator(parts[0], sep);
      assert [parts[0]] + parts[1..] == parts;
    }
  }

  /** Joining where only the last piece may hold separators: the last piece splits on its own. */
  lemma {:induction false} SplitJoinLast(parts: seq<string>, last: string, sep: char)
    requires forall i :: 0 <= i < |parts| ==> sep !in parts[i]
    ensures Split(Join(parts + [last], sep), sep) == parts + Split(last, sep)
  {
    if parts == [] {
      assert parts + [last] == [last];
    } else {
      var first, rest := parts[0], parts[1..] + [last];
      assert parts + [last] == [first] + rest;
      JoinCons(first, rest, sep);
      SplitJoinLast(parts[1..], last, sep);
      SplitAround(first, Join(rest, sep), sep);
      SplitNoSeparator(first, sep);
      ConsTail(parts, Split(last, sep));
    }
  }

  /** Putting the first element back in front of the rest, with more elements after. */
  lemma ConsTail(parts: seq<string>, more: seq<string>)
    requires |parts| >= 1
    ensures [parts[0]] + (parts[1..] + more) == parts + more
  {
    assert [parts[0]] + parts[1..] == parts;
  }

  /** Joining a first piece in front of at least one more piece puts one separator after it. */
  lemma JoinCons(x: string, parts: seq<string>, sep: char)
    requires |parts| >= 1
    ensures Join([x] + parts, sep) == x + [sep] + Join(parts, sep)
  {
    assert ([x] + parts)[1..] == parts;
  }

  /** Joining one more piece at the end adds one separator and the piece. */
  lemma {:induction false} JoinSnoc(parts: seq<string>, x: string, sep: char)
    requires |parts| >= 1
    ensures Join(parts + [x], sep) == Join(parts, sep) + [sep] + x
  {
    if |parts| == 1 {
      JoinCons(parts[0], [x], sep);
      assert parts + [x] == [parts[0]] + [x];
    } else {
      JoinSnoc(parts[1..], x, sep);
      JoinCons(parts[0], parts[1..] + [x], sep);
      assert [parts[0]] + (parts[1..] + [x]) == parts + [x];
      JoinCons(parts[0], parts[1..], sep);
      assert [parts[0]] + parts[1..] == parts;
    }
  }
}
