/** The text layout both header generators share: indentation by levels of
  * three spaces, Python's left-justified format field `'{0:<N}'`, splitting a
  * string into lines as `str.splitlines` does, joining with a separator, and
  * the output stream the generators print to, one line per `print`. */
module TextFormat {

  /** n spaces. */
  function Spaces(n: nat): (s: string)
    ensures |s| == n
  {
    if n == 0 then "" else Spaces(n - 1) + " "
  }

  lemma {:induction false} SpacesAt(n: nat, i: nat)
    requires i < n
    ensures Spaces(n)[i] == ' '
  {
    if i < n - 1 {
      SpacesAt(n - 1, i);
    }
  }

  lemma {:induction false} SpacesAppend(a: nat, b: nat)
    ensures Spaces(a) + Spaces(b) == Spaces(a + b)
  {
    if b > 0 {
      SpacesAppend(a, b - 1);
      assert Spaces(a) + Spaces(b) == (Spaces(a) + Spaces(b - 1)) + " ";
    }
  }

  lemma SpacesPrefix(n: nat, m: nat)
    requires m <= n
    ensures Spaces(n)[..m] == Spaces(m)
  {
    SpacesAppend(m, n - m);
  }

  /** GetWhitespace (identical in both generators): three spaces per level. */
  method GetWhitespace(indent: nat) returns (s: string)
    ensures s == Spaces(3 * indent)
  {
    s := "";
    for i := 0 to indent
      invariant s == Spaces(3 * i)
    {
      SpacesAppend(3 * i, 3);
      s := s + "   ";
    }
  }

  /** `'{0:<width}'.format(s)`: s followed by spaces up to width; a longer s
    * is kept whole. */
  function PadRight(s: string, width: nat): (r: string)
    ensures |r| == if |s| < width then width else |s|
    ensures r[..|s|] == s
  {
    if |s| < width then s + Spaces(width - |s|) else s
  }

  /** The padding is spaces. */
  lemma PadRightSpaces(s: string, width: nat, i: nat)
    requires |s| <= i < width
    ensures PadRight(s, width)[i] == ' '
  {
    SpacesAt(width - |s|, i - |s|);
  }

  /** Text written after a field padded to `width` starts at column `width`
    * whenever the field is no wider. */
  lemma PaddedColumn(s: string, width: nat, rest: string)
    requires |s| <= width
    ensures |PadRight(s, width)| == width
    ensures (PadRight(s, width) + rest)[width..] == rest
    ensures (PadRight(s, width) + rest)[..|s|] == s
  {
    var p := PadRight(s, width);
    assert (p + rest)[..|s|] == p[..|s|];
  }

  /** `line` is laid out in columns: `col` spaces of indentation, then `s`
    * in a field `width` wide, then `rest` from column col + width. */
  predicate Columns(line: string, col: nat, s: string, width: nat, rest: string)
  {
    && |s| <= width
    && col + width <= |line|
    && line[..col] == Spaces(col)
    && line[col..col + |s|] == s
    && line[col + width..] == rest
  }

  /** An indentation, a padded field and the rest lay a line out in columns. */
  lemma PaddedAfter(col: nat, s: string, width: nat, rest: string)
    requires |s| <= width
    ensures Columns(Spaces(col) + (PadRight(s, width) + rest), col, s, width, rest)
  {
    var ws := Spaces(col);
    var body := PadRight(s, width) + rest;
    PaddedColumn(s, width, rest);
    assert (ws + body)[..col] == ws;
    assert (ws + body)[col..] == body;
    Suffix(ws + body, col, body, |s|, width);
  }

  /** Slices of a line taken from where a known suffix starts are slices of
    * that suffix. */
  lemma Suffix(line: string, col: nat, rest: string, n: nat, m: nat)
    requires col <= |line| && line[col..] == rest && n <= |rest| && m <= |rest|
    ensures line[col..col + n] == rest[..n]
    ensures line[col + m..] == rest[m..]
  {
    assert line[col..col + n] == line[col..][..n];
    assert line[col + m..] == line[col..][m..];
  }

  /** The longest length in a list, 0 for none: the `maxLen = max(len(x),
    * maxLen)` accumulator of the emitters. */
  function MaxLen(strs: seq<string>): (m: nat)
    ensures |strs| == 0 ==> m == 0
  {
    if |strs| == 0 then 0
    else
      var m0 := MaxLen(strs[..|strs| - 1]);
      var last := |strs[|strs| - 1]|;
      if last > m0 then last else m0
  }

  /** MaxLen of one more string: the accumulator's step. */
  lemma MaxLenSnoc(strs: seq<string>, s: string)
    ensures MaxLen(strs + [s]) == if |s| > MaxLen(strs) then |s| else MaxLen(strs)
  {
    assert (strs + [s])[..|strs|] == strs;
  }

  /** No string of the list is longer than MaxLen. */
  lemma {:induction false} MaxLenBound(strs: seq<string>, i: nat)
    requires i < |strs|
    ensures |strs[i]| <= MaxLen(strs)
  {
    if i < |strs| - 1 {
      MaxLenBound(strs[..|strs| - 1], i);
    }
  }

  /** A non-empty list has a string exactly MaxLen long. */
  lemma {:induction false} MaxLenAttained(strs: seq<string>) returns (i: nat)
    requires |strs| > 0
    ensures i < |strs| && |strs[i]| == MaxLen(strs)
  {
    if |strs| == 1 || |strs[|strs| - 1]| > MaxLen(strs[..|strs| - 1]) {
      i := |strs| - 1;
    } else {
      i := MaxLenAttained(strs[..|strs| - 1]);
    }
  }

  /** Separator-joined parts, built left to right as the emitters do with
    * their `isFirst` flag. */
  function Join(parts: seq<string>, sep: string): string
  {
    if |parts| == 0 then ""
    else if |parts| == 1 then parts[0]
    else Join(parts[..|parts| - 1], sep) + sep + parts[|parts| - 1]
  }

  /** Joining one more part adds the separator and the part. */
  lemma JoinSnoc(parts: seq<string>, sep: string, p: string)
    ensures Join(parts + [p], sep) == if |parts| == 0 then p else Join(parts, sep) + sep + p
  {
    assert (parts + [p])[..|parts|] == parts;
  }

  /** Without a separator, joining one more part appends it. */
  lemma ConcatSnoc(parts: seq<string>, p: string)
    ensures Join(parts + [p], "") == Join(parts, "") + p
  {
    JoinSnoc(parts, "", p);
  }

  /** The index of the first newline, or |s| when there is none. */
  function NewlineAt(s: string): (i: nat)
    ensures i <= |s|
    ensures i < |s| ==> s[i] == '\n'
  {
    if |s| == 0 || s[0] == '\n' then 0 else 1 + NewlineAt(s[1..])
  }

  /** No line feed comes before NewlineAt: it is the first one. */
  lemma {:induction false} NewlineAtFirst(s: string, j: nat)
    requires j < NewlineAt(s)
    ensures s[j] != '\n'
  {
    if j > 0 {
      NewlineAtFirst(s[1..], j - 1);
    }
  }

  /** `str.splitlines()` on line feeds: the lines without their terminators;
    * a final terminator does not start another line. */
  function SplitLines(s: string): (lines: seq<string>)
    decreases |s|
  {
    if |s| == 0 then []
    else
      var i := NewlineAt(s);
      [s[..i]] + (if i == |s| then [] else SplitLines(s[i + 1..]))
  }

  /** Every line followed by a line feed. */
  function Terminated(lines: seq<string>): string
  {
    if |lines| == 0 then "" else lines[0] + "\n" + Terminated(lines[1..])
  }

  lemma TerminatedCons(line: string, lines: seq<string>)
    ensures Terminated([line] + lines) == line + "\n" + Terminated(lines)
  {
    assert ([line] + lines)[1..] == lines;
  }

  /** A string without a line feed is one line. */
  lemma SplitLinesOneLine(s: string)
    requires 0 < |s| == NewlineAt(s)
    ensures s[|s| - 1] != '\n'
    ensures Terminated(SplitLines(s)) == s + "\n"
  {
    NewlineAtFirst(s, |s| - 1);
    assert s[..|s|] == s;
    assert SplitLines(s) == [s] + [];
    TerminatedCons(s, []);
  }

  /** A string with a line feed at i is its first line, the line feed and
    * the rest, and splits into that line and the rest's lines. */
  lemma SplitLinesStep(s: string, i: nat)
    requires i == NewlineAt(s) < |s|
    ensures SplitLines(s) == [s[..i]] + SplitLines(s[i + 1..])
    ensures s == s[..i] + "\n" + s[i + 1..]
    ensures |s[i + 1..]| != 0 ==> s[|s| - 1] == s[i + 1..][|s[i + 1..]| - 1]
  {
    assert s == s[..i] + [s[i]] + s[i + 1..];
  }

  /** The lines of s, each terminated again, give back s, with a line feed
    * added when s did not end with one. */
  lemma {:induction false} SplitLinesRoundTrip(s: string)
    ensures Terminated(SplitLines(s)) == if |s| == 0 || s[|s| - 1] == '\n' then s else s + "\n"
    decreases |s|
  {
    if |s| > 0 {
      var i := NewlineAt(s);
      var head := s[..i];
      if i == |s| {
        SplitLinesOneLine(s);
      } else {
        var rest := s[i + 1..];
        SplitLinesRoundTrip(rest);
        SplitLinesStep(s, i);
        TerminatedCons(head, SplitLines(rest));
      }
    }
  }

  /** Each line with the indentation and the line-comment marker in front. */
  function Commented(ws: string, lines: seq<string>): (r: seq<string>)
    ensures |r| == |lines|
  {
    if |lines| == 0 then [] else Commented(ws, lines[..|lines| - 1]) + [ws + "// " + lines[|lines| - 1]]
  }

  /** Line i of the commented lines is line i behind ws and "// ". */
  lemma {:induction false} CommentedAt(ws: string, lines: seq<string>, i: nat)
    requires i < |lines|
    ensures Commented(ws, lines)[i] == ws + "// " + lines[i]
  {
    if i < |lines| - 1 {
      CommentedAt(ws, lines[..|lines| - 1], i);
    }
  }

  lemma CommentedSnoc(ws: string, lines: seq<string>, line: string)
    ensures Commented(ws, lines + [line]) == Commented(ws, lines) + [ws + "// " + line]
  {
    assert (lines + [line])[..|lines|] == lines;
  }

  lemma {:induction false} CommentedAppend(ws: string, a: seq<string>, b: seq<string>)
    ensures Commented(ws, a + b) == Commented(ws, a) + Commented(ws, b)
    decreases |b|
  {
    if |b| == 0 {
      assert a + b == a;
    } else {
      var b' := b[..|b| - 1];
      assert a + b == (a + b') + [b[|b| - 1]];
      assert b == b' + [b[|b| - 1]];
      CommentedSnoc(ws, a + b', b[|b| - 1]);
      CommentedSnoc(ws, b', b[|b| - 1]);
      CommentedAppend(ws, a, b');
    }
  }

  /** A wrapping function in the manner of `textwrap.fill(text, 120)` split
    * into lines: none of its lines is longer than 120 characters. */
  ghost predicate FillsTo120(wrap: string -> seq<string>)
  {
    forall text, i :: 0 <= i < |wrap(text)| ==> |wrap(text)[i]| <= 120
  }

  /** Every line is empty or starts with the indentation of `ind` levels. */
  predicate Indented(lines: seq<string>, ind: nat)
  {
    forall i :: 0 <= i < |lines| ==> lines[i] == "" || (3 * ind <= |lines[i]| && lines[i][..3 * ind] == Spaces(3 * ind))
  }

  lemma IndentedAppend(a: seq<string>, b: seq<string>, ind: nat)
    requires Indented(a, ind) && Indented(b, ind)
    ensures Indented(a + b, ind)
  {
    forall i | 0 <= i < |a + b|
      ensures (a + b)[i] == "" || (3 * ind <= |(a + b)[i]| && (a + b)[i][..3 * ind] == Spaces(3 * ind))
    {
      if i < |a| {
        assert (a + b)[i] == a[i];
      } else {
        assert (a + b)[i] == b[i - |a|];
      }
    }
  }

  /** A line that starts with the indentation of `ind` levels, for every text
    * after it. */
  lemma IndentedLine(ind: nat, text: string)
    ensures Indented([Spaces(3 * ind) + text], ind)
  {
    assert (Spaces(3 * ind) + text)[..3 * ind] == Spaces(3 * ind);
  }

  /** Lines indented by one more level are indented by this one too. */
  lemma IndentedDeeper(lines: seq<string>, ind: nat)
    requires Indented(lines, ind + 1)
    ensures Indented(lines, ind)
  {
    forall i | 0 <= i < |lines| && lines[i] != ""
      ensures 3 * ind <= |lines[i]| && lines[i][..3 * ind] == Spaces(3 * ind)
    {
      assert lines[i][..3 * ind] == lines[i][..3 * (ind + 1)][..3 * ind];
      SpacesPrefix(3 * (ind + 1), 3 * ind);
    }
  }

  /** Blocks of lines printed one after the other. */
  function Concatenated(blocks: seq<seq<string>>): seq<string>
  {
    if |blocks| == 0 then [] else Concatenated(blocks[..|blocks| - 1]) + blocks[|blocks| - 1]
  }

  /** Index |head| + k of head + mid + t1 + t2 is index k of mid. */
  lemma IndexBetween(head: seq<string>, mid: seq<string>, t1: seq<string>, t2: seq<string>, k: nat)
    requires k < |mid|
    ensures |head| + k < |head + mid + t1 + t2|
    ensures (head + mid + t1 + t2)[|head| + k] == mid[k]
  {
  }

  /** The last line of every non-empty block is among the concatenated
    * lines, at index j. */
  lemma {:induction false} ConcatenatedLast(blocks: seq<seq<string>>, i: nat) returns (j: nat)
    requires i < |blocks| && |blocks[i]| > 0
    ensures j < |Concatenated(blocks)| && Concatenated(blocks)[j] == blocks[i][|blocks[i]| - 1]
  {
    var n := |blocks| - 1;
    var front := Concatenated(blocks[..n]);
    if i < n {
      j := ConcatenatedLast(blocks[..n], i);
      assert blocks[..n][i] == blocks[i];
      assert (front + blocks[n])[j] == front[j];
    } else {
      j := |front| + |blocks[n]| - 1;
    }
  }

  /** A blank line, `keyword` and `{` at indentation ws, the body, and `};`. */
  function Braced(ws: string, keyword: string, body: seq<string>): seq<string>
  {
    ["", ws + keyword, ws + "{"] + body + [ws + "};"]
  }

  /** Regrouping the printed lines into the braced block. */
  lemma BracedShift(o: seq<string>, ws: string, keyword: string, body: seq<string>)
    ensures o + [""] + [ws + keyword] + [ws + "{"] + body + [ws + "};"] == o + Braced(ws, keyword, body)
  {
  }

  /** The opening of a braced block: a blank line, `keyword` and `{`. */
  method WriteBracedOpen(out: Stdout, ws: string, keyword: string)
    modifies out
    ensures out.lines == old(out.lines) + [""] + [ws + keyword] + [ws + "{"]
  {
    out.Print("");
    out.Print(ws + keyword);
    out.Print(ws + "{");
  }

  /** A block whose last line is laid out in columns leaves such a line
    * among the concatenated lines, at index j. */
  lemma ConcatenatedColumns(blocks: seq<seq<string>>, i: nat, col: nat, s: string, width: nat, rest: string)
    returns (j: nat)
    requires i < |blocks| && |blocks[i]| > 0 && Columns(blocks[i][|blocks[i]| - 1], col, s, width, rest)
    ensures j < |Concatenated(blocks)| && Columns(Concatenated(blocks)[j], col, s, width, rest)
  {
    j := ConcatenatedLast(blocks, i);
  }

  /** Printing block i after the first i blocks gives the first i + 1. */
  lemma ConcatenatedStep(o: seq<string>, blocks: seq<seq<string>>, i: nat, o1: seq<string>, o2: seq<string>)
    requires i < |blocks|
    requires o1 == o + Concatenated(blocks[..i])
    requires o2 == o1 + blocks[i]
    ensures o2 == o + Concatenated(blocks[..i + 1])
  {
    assert blocks[..i + 1][..i] == blocks[..i];
    AppendAssoc(o, Concatenated(blocks[..i]), blocks[i]);
  }

  /** Blocks that are each indented by `ind` levels concatenate to lines
    * indented by `ind` levels. */
  lemma {:induction false} IndentedConcatenated(blocks: seq<seq<string>>, ind: nat)
    requires forall i | 0 <= i < |blocks| :: Indented(blocks[i], ind)
    ensures Indented(Concatenated(blocks), ind)
  {
    if |blocks| > 0 {
      var n := |blocks| - 1;
      assert forall i | 0 <= i < n :: blocks[..n][i] == blocks[i];
      IndentedConcatenated(blocks[..n], ind);
      IndentedAppend(Concatenated(blocks[..n]), blocks[n], ind);
    }
  }

  /** Comment lines behind the indentation of `ind` levels are indented. */
  lemma CommentedIndented(lines: seq<string>, ind: nat)
    ensures Indented(Commented(Spaces(3 * ind), lines), ind)
  {
    var c := Commented(Spaces(3 * ind), lines);
    forall i | 0 <= i < |c|
      ensures 3 * ind <= |c[i]| && c[i][..3 * ind] == Spaces(3 * ind)
    {
      CommentedAt(Spaces(3 * ind), lines, i);
      assert c[i] == Spaces(3 * ind) + ("// " + lines[i]);
    }
  }

  /** A braced block at one level deeper than `ind` whose body is two
    * levels deeper is indented by `ind` levels. */
  lemma BracedIndented(ind: nat, keyword: string, body: seq<string>)
    requires Indented(body, ind + 2)
    ensures Indented(Braced(Spaces(3 * (ind + 1)), keyword, body), ind)
  {
    var ws1 := Spaces(3 * (ind + 1));
    IndentedDeeper(body, ind + 1);
    IndentedLine(ind + 1, keyword);
    IndentedLine(ind + 1, "{");
    IndentedLine(ind + 1, "};");
    assert Indented([""], ind + 1);
    IndentedAppend([""], [ws1 + keyword], ind + 1);
    IndentedAppend([""] + [ws1 + keyword], [ws1 + "{"], ind + 1);
    assert [""] + [ws1 + keyword] + [ws1 + "{"] == ["", ws1 + keyword, ws1 + "{"];
    IndentedAppend(["", ws1 + keyword, ws1 + "{"], body, ind + 1);
    IndentedAppend(["", ws1 + keyword, ws1 + "{"] + body, [ws1 + "};"], ind + 1);
    IndentedDeeper(Braced(ws1, keyword, body), ind);
  }

  /** Printing c after a and b leaves the lines a + b + c behind o. */
  lemma PrintedAfter(o: seq<string>, a: seq<string>, b: seq<string>, c: seq<string>, o1: seq<string>,
                     o2: seq<string>)
    requires o1 == o + a + b && o2 == o1 + c
    ensures o2 == o + (a + b + c)
  {
    AppendAssoc(o, a, b);
    AppendAssoc(o, a + b, c);
  }

  lemma AppendAssoc<T>(a: seq<T>, b: seq<T>, c: seq<T>)
    ensures (a + b) + c == a + (b + c)
  {
  }

  /** The output stream the generators print to, as the lines printed so
    * far. A `print` whose text holds a line feed is two lines. */
  class Stdout {
    var lines: seq<string>

    constructor()
      ensures lines == []
    {
      lines := [];
    }

    method Print(line: string)
      modifies this
      ensures lines == old(lines) + [line]
    {
      lines := lines + [line];
    }
  }
}
