/** The C++ header generator (omm-sdk/scripts/_interface_gen_cpp.py): every
  * declaration of the schema rendered as C++ inside its namespaces, each
  * level of nesting indented by one more level, with every type that a
  * member or a parameter refers to qualified by the namespaces it does not
  * share with the referring declaration.
  *
  * Each Write* method prints to the output stream and is proved to print
  * exactly the lines of a function of the same inputs; the lemmas state what
  * those lines look like. The comment wrapper (`textwrap.fill` of the whole
  * comment, split into lines) is a parameter `wrap`. */
module CppHeaderGen {
  import opened TextFormat
  import opened Schema

  /** The `prefixLut` dictionary of the C++ generator: declaration key to
    * the list of namespace names it is nested in. */
  class PathLut {
    var entries: map<string, seq<string>>

    constructor()
      ensures entries == map[]
    {
      entries := map[];
    }

    /** BuildTypeToPrefix: walks `layout` in order, recursing into each
      * namespace with a copy of the path that has the namespace's name
      * appended, and recording every other declaration's path. */
    method BuildTypeToPrefix(dic: Dic, ghost rank: map<string, nat>, ghost bound: nat,
                             prefix: seq<string>, layout: seq<string>)
      requires Ranked(dic, rank) && Below(dic, rank, layout, bound)
      modifies this
      ensures entries == PathTable(dic, rank, bound, prefix, layout, old(entries))
      decreases bound
    {
      for i := 0 to |layout|
        invariant entries == PathTable(dic, rank, bound, prefix, layout[..i], old(entries))
      {
        var key := layout[i];
        assert key in layout;
        assert layout[..i + 1][..i] == layout[..i];
        PrefixBelow(dic, rank, layout, bound, i + 1);
        var obj := dic[key];
        match obj {
          case Namespace(objName, values) =>
            var prefixcpy := prefix + [objName];
            NamespaceBelow(dic, rank, key);
            BuildTypeToPrefix(dic, rank, rank[key], prefixcpy, values);
          case _ =>
            entries := entries[key := prefix];
        }
      }
      assert layout[..|layout|] == layout;
    }
  }

  /** GetNameWithMinimalNamespace: the name behind the namespaces of
    * `nameKey`'s path that are missing from `ref`'s path, joined with "::"
    * in a loop; the bare name when either path is empty or none is
    * missing. */
  method GetNameWithMinimalNamespace(prefixLut: map<string, seq<string>>, ref: string, nameKey: string,
                                     name: string) returns (r: string)
    ensures r == MinimalName(prefixLut, ref, nameKey, name)
  {
    if nameKey in prefixLut && prefixLut[nameKey] != [] && ref in prefixLut && prefixLut[ref] != [] {
      var a := prefixLut[ref];
      var b := prefixLut[nameKey];
      var ns := Intersection(b, a);
      if |ns| != 0 {
        var res := "";
        var isFirst := true;
        for i := 0 to |ns|
          invariant isFirst == (i == 0)
          invariant res == Join(ns[..i], "::")
        {
          if !isFirst {
            res := res + "::";
          }
          res := res + ns[i];
          isFirst := false;
          assert ns[..i + 1] == ns[..i] + [ns[i]];
          JoinSnoc(ns[..i], "::", ns[i]);
        }
        assert ns[..|ns|] == ns;
        return res + "::" + name;
      }
    }
    return name;
  }

  // ---------------------------------------------------------------------
  // WriteComment
  // ---------------------------------------------------------------------

  /** What WriteComment prints: the whole comment wrapped at once (its own
    * line breaks go to the wrapper with the text), each wrapped line behind
    * the indentation and "// ". */
  function CommentLines(inComment: string, ind: nat, wrap: string -> seq<string>): seq<string>
  {
    Commented(Spaces(3 * ind), wrap(inComment))
  }

  method WriteComment(out: Stdout, inComment: string, ind: nat, wrap: string -> seq<string>)
    modifies out
    ensures out.lines == old(out.lines) + CommentLines(inComment, ind, wrap)
  {
    var ws := GetWhitespace(ind);
    var comment := wrap(inComment);
    for i := 0 to |comment|
      invariant out.lines == old(out.lines) + Commented(ws, comment[..i])
    {
      out.Print(ws + "// " + comment[i]);
      assert comment[..i + 1] == comment[..i] + [comment[i]];
      CommentedSnoc(ws, comment[..i], comment[i]);
    }
    assert comment[..|comment|] == comment;
  }

  /** With a wrapper that fills to 120 columns, every comment line is the
    * indentation, "// " and at most 120 characters of text. */
  lemma CommentWidth(inComment: string, ind: nat, wrap: string -> seq<string>)
    requires FillsTo120(wrap)
    ensures forall i | 0 <= i < |CommentLines(inComment, ind, wrap)| ::
      var line := CommentLines(inComment, ind, wrap)[i];
      3 * ind + 3 <= |line| <= 3 * ind + 3 + 120 && line[..3 * ind + 3] == Spaces(3 * ind) + "// "
  {
    var lines := CommentLines(inComment, ind, wrap);
    forall i | 0 <= i < |lines|
      ensures 3 * ind + 3 <= |lines[i]| <= 3 * ind + 3 + 120 && lines[i][..3 * ind + 3] == Spaces(3 * ind) + "// "
    {
      CommentedAt(Spaces(3 * ind), wrap(inComment), i);
      assert lines[i] == Spaces(3 * ind) + "// " + wrap(inComment)[i];
      assert lines[i][..3 * ind + 3] == Spaces(3 * ind) + "// ";
    }
  }

  /** The comment printed before a declaration, a value or a member: none
    * when it has no comment. */
  function OptComment(comment: string, ind: nat, wrap: string -> seq<string>): seq<string>
  {
    if comment != "" then CommentLines(comment, ind, wrap) else []
  }

  /** Comment lines start with the indentation they are printed at. */
  lemma OptCommentIndented(comment: string, ind: nat, wrap: string -> seq<string>)
    ensures Indented(OptComment(comment, ind, wrap), ind)
  {
    if comment != "" {
      CommentedIndented(wrap(comment), ind);
    }
  }

  method WriteOptComment(out: Stdout, comment: string, ind: nat, wrap: string -> seq<string>)
    modifies out
    ensures out.lines == old(out.lines) + OptComment(comment, ind, wrap)
  {
    if comment != "" {
      WriteComment(out, comment, ind, wrap);
    } else {
      assert out.lines == old(out.lines) + [];
    }
  }

  // ---------------------------------------------------------------------
  // WriteEnum
  // ---------------------------------------------------------------------

  /** The value names of an enum, in order. */
  function ValueNames(values: seq<EnumValue>): (names: seq<string>)
    ensures |names| == |values|
  {
    if |values| == 0 then [] else ValueNames(values[..|values| - 1]) + [values[|values| - 1].name]
  }

  lemma {:induction false} ValueNamesAt(values: seq<EnumValue>, i: nat)
    requires i < |values|
    ensures ValueNames(values)[i] == values[i].name
  {
    if i < |values| - 1 {
      ValueNamesAt(values[..|values| - 1], i);
    }
  }

  lemma ValueNamesSnoc(values: seq<EnumValue>, i: nat)
    requires i < |values|
    ensures ValueNames(values[..i + 1]) == ValueNames(values[..i]) + [values[i].name]
  {
    assert values[..i + 1][..i] == values[..i];
  }

  /** One value's line: the bare value name padded to maxLen + 1, then
    * "= v," when it has a value; the name and "," otherwise. */
  function EnumValueLine(ind: nat, maxLen: nat, val: EnumValue): string
  {
    if val.value != "" then Spaces(3 * ind) + PadRight(val.name, maxLen + 1) + "= " + val.value + ","
    else Spaces(3 * ind) + val.name + ","
  }

  /** Everything printed for one value: a blank line first when asked for
    * (never before the first value), its comment, its line. */
  function EnumValueBlock(ind: nat, maxLen: nat, injectNewLine: bool, first: bool, val: EnumValue,
                          wrap: string -> seq<string>): seq<string>
  {
    (if !first && injectNewLine then [""] else []) + OptComment(val.comment, ind + 1, wrap) +
    [EnumValueLine(ind + 1, maxLen, val)]
  }

  /** The block of every value, in order. */
  function EnumBlocks(ind: nat, maxLen: nat, injectNewLine: bool, values: seq<EnumValue>,
                      wrap: string -> seq<string>): (blocks: seq<seq<string>>)
    ensures |blocks| == |values|
  {
    seq(|values|, i requires 0 <= i < |values| => EnumValueBlock(ind, maxLen, injectNewLine, i == 0, values[i], wrap))
  }

  /** The longest value name, the width the value lines align to. */
  function EnumWidth(obj: Decl): nat
    requires obj.Enum?
  {
    MaxLen(ValueNames(obj.enumValues))
  }

  /** What WriteEnum prints: `enum class N`, the values one level in, `};`
    * and, for a flag enum, the operator macro. */
  function EnumLines(obj: Decl, ind: nat, wrap: string -> seq<string>): seq<string>
    requires obj.Enum?
  {
    var ws := Spaces(3 * ind);
    [ws + ("enum class " + obj.name), ws + "{"] +
    Concatenated(EnumBlocks(ind, EnumWidth(obj), obj.injectNewLine, obj.enumValues, wrap)) +
    [ws + "};"] +
    (if obj.isFlag then [ws + "OMM_DEFINE_ENUM_FLAG_OPERATORS(" + obj.name + ");"] else [])
  }

  /** The first loop of WriteEnum: the longest value name. */
  method ValueNameWidth(values: seq<EnumValue>) returns (maxLen: nat)
    ensures maxLen == MaxLen(ValueNames(values))
  {
    maxLen := 0;
    for i := 0 to |values|
      invariant maxLen == MaxLen(ValueNames(values[..i]))
    {
      ValueNamesSnoc(values, i);
      MaxLenSnoc(ValueNames(values[..i]), values[i].name);
      maxLen := if |values[i].name| > maxLen then |values[i].name| else maxLen;
    }
    assert values[..|values|] == values;
  }

  /** One pass of WriteEnum's second loop. */
  method WriteEnumValue(out: Stdout, ind: nat, maxLen: nat, injectNewLine: bool, first: bool, val: EnumValue,
                        wrap: string -> seq<string>)
    modifies out
    ensures out.lines == old(out.lines) + EnumValueBlock(ind, maxLen, injectNewLine, first, val, wrap)
  {
    var ws1 := GetWhitespace(ind + 1);
    if !first && injectNewLine {
      out.Print("");
    }
    ghost var blank := if !first && injectNewLine then [""] else [];
    assert out.lines == old(out.lines) + blank;
    var tp := val.name;
    WriteOptComment(out, val.comment, ind + 1, wrap);
    ghost var comment := OptComment(val.comment, ind + 1, wrap);
    if val.value != "" {
      out.Print(ws1 + PadRight(tp, maxLen + 1) + "= " + val.value + ",");
    } else {
      out.Print(ws1 + tp + ",");
    }
    assert out.lines == old(out.lines) + EnumValueBlock(ind, maxLen, injectNewLine, first, val, wrap) by {
      var line := EnumValueLine(ind + 1, maxLen, val);
      assert out.lines == old(out.lines) + blank + comment + [line];
      AppendAssoc(old(out.lines), blank, comment);
      AppendAssoc(old(out.lines), blank + comment, [line]);
    }
  }

  /** WriteEnum's second loop: every value's block in order. */
  method WriteEnumBody(out: Stdout, ind: nat, maxLen: nat, injectNewLine: bool, values: seq<EnumValue>,
                       wrap: string -> seq<string>)
    modifies out
    ensures out.lines == old(out.lines) + Concatenated(EnumBlocks(ind, maxLen, injectNewLine, values, wrap))
  {
    ghost var blocks := EnumBlocks(ind, maxLen, injectNewLine, values, wrap);
    var first := true;
    for i := 0 to |values|
      invariant first == (i == 0)
      invariant out.lines == old(out.lines) + Concatenated(blocks[..i])
    {
      ghost var o1 := out.lines;
      WriteEnumValue(out, ind, maxLen, injectNewLine, first, values[i], wrap);
      ConcatenatedStep(old(out.lines), blocks, i, o1, out.lines);
      first := false;
    }
    assert blocks[..|values|] == blocks;
  }

  method WriteEnum(out: Stdout, obj: Decl, ind: nat, wrap: string -> seq<string>)
    requires obj.Enum?
    modifies out
    ensures out.lines == old(out.lines) + EnumLines(obj, ind, wrap)
  {
    var values := obj.enumValues;
    var ws := GetWhitespace(ind);
    var name := obj.name;
    var declLine := "enum class " + name;
    var maxLen := ValueNameWidth(values);

    out.Print(ws + declLine);
    out.Print(ws + "{");
    ghost var header := [ws + declLine, ws + "{"];
    ghost var start := out.lines;
    assert start == old(out.lines) + header;
    WriteEnumBody(out, ind, maxLen, obj.injectNewLine, values, wrap);
    ghost var body := Concatenated(EnumBlocks(ind, maxLen, obj.injectNewLine, values, wrap));
    out.Print(ws + "};");
    if obj.isFlag {
      out.Print(ws + "OMM_DEFINE_ENUM_FLAG_OPERATORS(" + name + ");");
    }
    ghost var flag := if obj.isFlag then [ws + "OMM_DEFINE_ENUM_FLAG_OPERATORS(" + name + ");"] else [];
    assert out.lines == start + body + [ws + "};"] + flag;
    assert EnumLines(obj, ind, wrap) == header + body + [ws + "};"] + flag;
    assert out.lines == old(out.lines) + EnumLines(obj, ind, wrap) by {
      AppendAssoc(old(out.lines), header, body);
      AppendAssoc(old(out.lines), header + body, [ws + "};"]);
      AppendAssoc(old(out.lines), header + body + [ws + "};"], flag);
    }
  }

  /** Every value has its line among the enum's lines, at index j. */
  lemma EnumValueLineAt(obj: Decl, ind: nat, wrap: string -> seq<string>, i: nat) returns (j: nat)
    requires obj.Enum? && i < |obj.enumValues|
    ensures j < |EnumLines(obj, ind, wrap)|
    ensures EnumLines(obj, ind, wrap)[j] == EnumValueLine(ind + 1, EnumWidth(obj), obj.enumValues[i])
  {
    var ws := Spaces(3 * ind);
    var head := [ws + ("enum class " + obj.name), ws + "{"];
    var blocks := EnumBlocks(ind, EnumWidth(obj), obj.injectNewLine, obj.enumValues, wrap);
    var mid := Concatenated(blocks);
    var flag := if obj.isFlag then [ws + "OMM_DEFINE_ENUM_FLAG_OPERATORS(" + obj.name + ");"] else [];
    var k: nat :| k < |mid| && mid[k] == EnumValueLine(ind + 1, EnumWidth(obj), obj.enumValues[i]) by {
      var k0 := ConcatenatedLast(blocks, i);
      assert blocks[i][|blocks[i]| - 1] == EnumValueLine(ind + 1, EnumWidth(obj), obj.enumValues[i]);
      assert k0 < |mid| && mid[k0] == EnumValueLine(ind + 1, EnumWidth(obj), obj.enumValues[i]);
    }
    assert EnumLines(obj, ind, wrap) == head + mid + [ws + "};"] + flag;
    IndexBetween(head, mid, [ws + "};"], flag, k);
    j := 2 + k;
  }

  /** No value name is wider than the width the value lines align to. */
  lemma EnumNameWidth(obj: Decl, i: nat)
    requires obj.Enum? && i < |obj.enumValues|
    ensures |obj.enumValues[i].name| <= EnumWidth(obj)
  {
    ValueNamesAt(obj.enumValues, i);
    MaxLenBound(ValueNames(obj.enumValues), i);
  }

  /** The columns of a value line with an explicit value: the indentation,
    * the name, spaces up to one column past the width, then "= v,". */
  lemma EnumValueColumns(ind: nat, maxLen: nat, val: EnumValue)
    requires |val.name| <= maxLen && val.value != ""
    ensures var line := EnumValueLine(ind, maxLen, val);
      && |line| == 3 * ind + maxLen + 1 + |val.value| + 3
      && line[..3 * ind] == Spaces(3 * ind)
      && line[3 * ind..3 * ind + |val.name|] == val.name
      && line[3 * ind + maxLen + 1..] == "= " + val.value + ","
  {
    var rest := "= " + val.value + ",";
    PaddedColumn(val.name, maxLen + 1, rest);
    var line := EnumValueLine(ind, maxLen, val);
    assert line == Spaces(3 * ind) + (PadRight(val.name, maxLen + 1) + rest);
    assert line[3 * ind..] == PadRight(val.name, maxLen + 1) + rest;
  }

  /** Every value with an explicit value has its line among the enum's
    * lines, at index j, with its "= v," starting one column past the
    * longest value name. */
  lemma EnumValueAligned(obj: Decl, ind: nat, wrap: string -> seq<string>, i: nat) returns (j: nat)
    requires obj.Enum? && i < |obj.enumValues| && obj.enumValues[i].value != ""
    ensures j < |EnumLines(obj, ind, wrap)|
    ensures
      var line := EnumLines(obj, ind, wrap)[j];
      var col := 3 * (ind + 1);
      var val := obj.enumValues[i];
      && |val.name| <= EnumWidth(obj)
      && |line| == col + EnumWidth(obj) + 1 + |val.value| + 3
      && line[..col] == Spaces(col)
      && line[col..col + |val.name|] == val.name
      && line[col + EnumWidth(obj) + 1..] == "= " + val.value + ","
  {
    j := EnumValueLineAt(obj, ind, wrap, i);
    EnumNameWidth(obj, i);
    EnumValueColumns(ind + 1, EnumWidth(obj), obj.enumValues[i]);
  }

  // ---------------------------------------------------------------------
  // WriteStructMembers
  // ---------------------------------------------------------------------

  /** GetStructMemberLHS: everything before a member's name: "static ",
    * "constexpr ", "const ", the type's name qualified relative to the
    * struct's key, and "*". */
  function GetStructMemberLHS(dic: Dic, prefixLut: map<string, seq<string>>, structKey: string, val: Member): string
  {
    (if val.isStatic then "static " else "") + (if val.isConstexpr then "constexpr " else "") +
    (if val.isConst then "const " else "") + MinimalName(prefixLut, structKey, val.typ, TypeName(dic, val.typ)) +
    (if val.isPtr then "*" else "")
  }

  /** GetStructMemberLHS as the script computes it, through
    * GetNameWithMinimalNamespace. */
  method MemberLHS(dic: Dic, prefixLut: map<string, seq<string>>, structKey: string, val: Member)
    returns (lhs: string)
    ensures lhs == GetStructMemberLHS(dic, prefixLut, structKey, val)
  {
    var typeKey := val.typ;
    var typeName := typeKey;
    if typeKey in dic {
      typeName := dic[typeKey].name;
    }
    var tp := GetNameWithMinimalNamespace(prefixLut, structKey, typeKey, typeName);
    var storage := if val.isStatic then "static " else "";
    var constexpr := if val.isConstexpr then "constexpr " else "";
    var prefix := if val.isConst then "const " else "";
    var postFix := if val.isPtr then "*" else "";
    lhs := storage + constexpr + prefix + tp + postFix;
  }

  /** The left-hand sides of a member list, in order. */
  function MemberLHSs(dic: Dic, prefixLut: map<string, seq<string>>, structKey: string, members: seq<Member>)
    : (lhss: seq<string>)
    ensures |lhss| == |members|
  {
    if |members| == 0 then []
    else
      MemberLHSs(dic, prefixLut, structKey, members[..|members| - 1]) +
      [GetStructMemberLHS(dic, prefixLut, structKey, members[|members| - 1])]
  }

  lemma {:induction false} MemberLHSsAt(dic: Dic, prefixLut: map<string, seq<string>>, structKey: string,
                                        members: seq<Member>, i: nat)
    requires i < |members|
    ensures MemberLHSs(dic, prefixLut, structKey, members)[i] == GetStructMemberLHS(dic, prefixLut, structKey, members[i])
  {
    if i < |members| - 1 {
      MemberLHSsAt(dic, prefixLut, structKey, members[..|members| - 1], i);
    }
  }

  lemma MemberLHSsSnoc(dic: Dic, prefixLut: map<string, seq<string>>, structKey: string, members: seq<Member>, i: nat)
    requires i < |members|
    ensures MemberLHSs(dic, prefixLut, structKey, members[..i + 1])
         == MemberLHSs(dic, prefixLut, structKey, members[..i]) + [GetStructMemberLHS(dic, prefixLut, structKey, members[i])]
  {
    assert members[..i + 1][..i] == members[..i];
  }

  /** The C++ spelling of a member's default: "{}" for the sentinel
    * "default", `<type>::<value>` for an enum-value object (the object's
    * own "type" field), any other literal as written. */
  function DefaultText(val: Member): string
  {
    match val.value
    case Literal(text) => if text == "default" then "{}" else text
    case EnumRef(typ, value) => typ + "::" + value
    case NoValue => ""
  }

  /** The value texts of a member list, in order. */
  function DefaultTexts(members: seq<Member>): (texts: seq<string>)
    ensures |texts| == |members|
  {
    if |members| == 0 then [] else DefaultTexts(members[..|members| - 1]) + [DefaultText(members[|members| - 1])]
  }

  lemma {:induction false} DefaultTextsAt(members: seq<Member>, i: nat)
    requires i < |members|
    ensures DefaultTexts(members)[i] == DefaultText(members[i])
  {
    if i < |members| - 1 {
      DefaultTextsAt(members[..|members| - 1], i);
    }
  }

  /** One member's line: the left-hand side padded to maxLen + 1; for a
    * member with a value, the name padded to maxLenName + 1, " = ", the
    * value and ";"; otherwise the name and ";". */
  function MemberLine(ind: nat, maxLen: nat, maxLenName: nat, lhs: string, val: Member, text: string): string
  {
    Spaces(3 * ind) +
    (PadRight(lhs, maxLen + 1) +
     (if HasValue(val) then PadRight(val.name, maxLenName + 1) + (" = " + text + ";") else val.name + ";"))
  }

  /** The comments of a member list, in order. */
  function MemberComments(members: seq<Member>, ind: nat, wrap: string -> seq<string>): (comments: seq<seq<string>>)
    ensures |comments| == |members|
  {
    if |members| == 0 then []
    else MemberComments(members[..|members| - 1], ind, wrap) + [OptComment(members[|members| - 1].comment, ind, wrap)]
  }

  lemma {:induction false} MemberCommentsAt(members: seq<Member>, ind: nat, wrap: string -> seq<string>, i: nat)
    requires i < |members|
    ensures MemberComments(members, ind, wrap)[i] == OptComment(members[i].comment, ind, wrap)
  {
    if i < |members| - 1 {
      MemberCommentsAt(members[..|members| - 1], ind, wrap, i);
    }
  }

  /** Everything printed for one member: its comment, its line. */
  function MemberBlock(ind: nat, maxLen: nat, maxLenName: nat, lhs: string, val: Member, text: string,
                       comment: seq<string>): seq<string>
  {
    comment + [MemberLine(ind, maxLen, maxLenName, lhs, val, text)]
  }

  /** The block of every member, from the parallel lists of left-hand
    * sides, value texts and comments. */
  function MemberBlocks(ind: nat, maxLen: nat, maxLenName: nat, members: seq<Member>, lhss: seq<string>,
                        texts: seq<string>, comments: seq<seq<string>>): (blocks: seq<seq<string>>)
    requires |lhss| == |members| && |texts| == |members| && |comments| == |members|
    ensures |blocks| == |members|
  {
    if |members| == 0 then []
    else
      var n := |members| - 1;
      MemberBlocks(ind, maxLen, maxLenName, members[..n], lhss[..n], texts[..n], comments[..n]) +
      [MemberBlock(ind, maxLen, maxLenName, lhss[n], members[n], texts[n], comments[n])]
  }

  lemma {:induction false} MemberBlocksAt(ind: nat, maxLen: nat, maxLenName: nat, members: seq<Member>,
                                          lhss: seq<string>, texts: seq<string>, comments: seq<seq<string>>, i: nat)
    requires |lhss| == |members| && |texts| == |members| && |comments| == |members| && i < |members|
    ensures MemberBlocks(ind, maxLen, maxLenName, members, lhss, texts, comments)[i]
         == MemberBlock(ind, maxLen, maxLenName, lhss[i], members[i], texts[i], comments[i])
  {
    var n := |members| - 1;
    if i < n {
      MemberBlocksAt(ind, maxLen, maxLenName, members[..n], lhss[..n], texts[..n], comments[..n], i);
      assert members[..n][i] == members[i];
      assert lhss[..n][i] == lhss[i];
      assert texts[..n][i] == texts[i];
      assert comments[..n][i] == comments[i];
    }
  }

  /** What WriteStructMembers prints: every member's block, the names
    * aligned one column past the longest left-hand side and the " = "
    * one column past the longest name. */
  function StructMembersLines(dic: Dic, prefixLut: map<string, seq<string>>, structKey: string, members: seq<Member>,
                              ind: nat, wrap: string -> seq<string>): seq<string>
  {
    var lhss := MemberLHSs(dic, prefixLut, structKey, members);
    Concatenated(MemberBlocks(ind, MaxLen(lhss), MaxLen(MemberNames(members)), members, lhss,
                              DefaultTexts(members), MemberComments(members, ind, wrap)))
  }

  /** The first loop of WriteStructMembers: the longest left-hand side and
    * the longest name. */
  method MemberWidths(dic: Dic, prefixLut: map<string, seq<string>>, structKey: string, members: seq<Member>)
    returns (maxLen: nat, maxLenName: nat)
    ensures maxLen == MaxLen(MemberLHSs(dic, prefixLut, structKey, members))
    ensures maxLenName == MaxLen(MemberNames(members))
  {
    maxLen := 0;
    maxLenName := 0;
    for i := 0 to |members|
      invariant maxLen == MaxLen(MemberLHSs(dic, prefixLut, structKey, members[..i]))
      invariant maxLenName == MaxLen(MemberNames(members[..i]))
    {
      var lhs := MemberLHS(dic, prefixLut, structKey, members[i]);
      MemberLHSsSnoc(dic, prefixLut, structKey, members, i);
      MaxLenSnoc(MemberLHSs(dic, prefixLut, structKey, members[..i]), lhs);
      MemberNamesSnoc(members, i);
      MaxLenSnoc(MemberNames(members[..i]), members[i].name);
      maxLen := if |lhs| > maxLen then |lhs| else maxLen;
      maxLenName := if |members[i].name| > maxLenName then |members[i].name| else maxLenName;
    }
    assert members[..|members|] == members;
  }

  /** The left-hand side of member i, as the member loop computes it. */
  method MemberLHSAt(dic: Dic, prefixLut: map<string, seq<string>>, structKey: string, members: seq<Member>, i: nat)
    returns (lhs: string)
    requires i < |members|
    ensures lhs == MemberLHSs(dic, prefixLut, structKey, members)[i]
  {
    lhs := MemberLHS(dic, prefixLut, structKey, members[i]);
    MemberLHSsAt(dic, prefixLut, structKey, members, i);
  }

  /** One pass of WriteStructMembers' second loop, once the left-hand side
    * is known. */
  method WriteStructMember(out: Stdout, ind: nat, maxLen: nat, maxLenName: nat, lhs: string, val: Member,
                           wrap: string -> seq<string>)
    modifies out
    ensures out.lines == old(out.lines) +
      MemberBlock(ind, maxLen, maxLenName, lhs, val, DefaultText(val), OptComment(val.comment, ind, wrap))
  {
    var ws := GetWhitespace(ind);
    WriteOptComment(out, val.comment, ind, wrap);
    ghost var comment := OptComment(val.comment, ind, wrap);
    var name := val.name;
    var lineStr;
    if HasValue(val) {
      var value;
      match val.value {
        case EnumRef(typ, v) =>
          value := typ + "::" + v;
        case Literal(text) =>
          value := text;
          if value == "default" {
            value := "{}";
          }
      }
      lineStr := PadRight(lhs, maxLen + 1) + (PadRight(name, maxLenName + 1) + (" = " + value + ";"));
    } else {
      lineStr := PadRight(lhs, maxLen + 1) + (name + ";");
    }
    out.Print(ws + lineStr);
    AppendAssoc(old(out.lines), comment, [ws + lineStr]);
  }

  /** WriteStructMembers' second loop: every member's block in order. */
  method WriteMemberBlocks(out: Stdout, dic: Dic, prefixLut: map<string, seq<string>>, structKey: string,
                           members: seq<Member>, ind: nat, maxLen: nat, maxLenName: nat, wrap: string -> seq<string>)
    modifies out
    ensures out.lines == old(out.lines) +
      Concatenated(MemberBlocks(ind, maxLen, maxLenName, members, MemberLHSs(dic, prefixLut, structKey, members),
                                DefaultTexts(members), MemberComments(members, ind, wrap)))
  {
    ghost var lhss := MemberLHSs(dic, prefixLut, structKey, members);
    ghost var texts := DefaultTexts(members);
    ghost var comments := MemberComments(members, ind, wrap);
    ghost var blocks := MemberBlocks(ind, maxLen, maxLenName, members, lhss, texts, comments);
    for i := 0 to |members|
      invariant out.lines == old(out.lines) + Concatenated(blocks[..i])
    {
      var lhs := MemberLHSAt(dic, prefixLut, structKey, members, i);
      ghost var o1 := out.lines;
      WriteStructMember(out, ind, maxLen, maxLenName, lhs, members[i], wrap);
      assert out.lines == o1 + blocks[i] by {
        DefaultTextsAt(members, i);
        MemberCommentsAt(members, ind, wrap, i);
        MemberBlocksAt(ind, maxLen, maxLenName, members, lhss, texts, comments, i);
      }
      ConcatenatedStep(old(out.lines), blocks, i, o1, out.lines);
    }
    assert blocks[..|members|] == blocks;
  }

  method WriteStructMembers(out: Stdout, dic: Dic, prefixLut: map<string, seq<string>>, structKey: string,
                            members: seq<Member>, ind: nat, wrap: string -> seq<string>)
    modifies out
    ensures out.lines == old(out.lines) + StructMembersLines(dic, prefixLut, structKey, members, ind, wrap)
  {
    var maxLen, maxLenName := MemberWidths(dic, prefixLut, structKey, members);
    WriteMemberBlocks(out, dic, prefixLut, structKey, members, ind, maxLen, maxLenName, wrap);
  }

  /** Every member has its line among the lines printed, at index j, built
    * from its left-hand side (GetStructMemberLHS of the member), its value
    * text and the two widths, neither of which it exceeds. */
  lemma MemberAligned(dic: Dic, prefixLut: map<string, seq<string>>, structKey: string, members: seq<Member>,
                      ind: nat, wrap: string -> seq<string>, i: nat)
    returns (j: nat)
    requires i < |members|
    ensures
      var lines := StructMembersLines(dic, prefixLut, structKey, members, ind, wrap);
      var lhs := GetStructMemberLHS(dic, prefixLut, structKey, members[i]);
      var maxLen := MaxLen(MemberLHSs(dic, prefixLut, structKey, members));
      var maxLenName := MaxLen(MemberNames(members));
      && j < |lines|
      && lines[j] == MemberLine(ind, maxLen, maxLenName, lhs, members[i], DefaultText(members[i]))
      && |lhs| <= maxLen && |members[i].name| <= maxLenName
  {
    var lhss := MemberLHSs(dic, prefixLut, structKey, members);
    var texts := DefaultTexts(members);
    var comments := MemberComments(members, ind, wrap);
    var maxLen := MaxLen(lhss);
    var maxLenName := MaxLen(MemberNames(members));
    var blocks := MemberBlocks(ind, maxLen, maxLenName, members, lhss, texts, comments);
    MemberBlocksAt(ind, maxLen, maxLenName, members, lhss, texts, comments, i);
    j := ConcatenatedLast(blocks, i);
    MemberLHSsAt(dic, prefixLut, structKey, members, i);
    DefaultTextsAt(members, i);
    MaxLenBound(lhss, i);
    MemberNamesAt(members, i);
    MaxLenBound(MemberNames(members), i);
  }

  /** The columns of a member line whose left-hand side and name fit their
    * widths: the left-hand side after the indentation, the name from
    * column 3 * ind + maxLen + 1, and for a member with a value, " = " and
    * the value from one column past the widest name. */
  lemma MemberLineColumns(ind: nat, maxLen: nat, maxLenName: nat, lhs: string, val: Member, text: string)
    requires |lhs| <= maxLen && |val.name| <= maxLenName
    ensures var line := MemberLine(ind, maxLen, maxLenName, lhs, val, text);
      var col := 3 * ind + maxLen + 1;
      && line[..3 * ind] == Spaces(3 * ind)
      && line[3 * ind..3 * ind + |lhs|] == lhs
      && (HasValue(val) ==>
            line[col..col + |val.name|] == val.name && line[col + maxLenName + 1..] == " = " + text + ";")
      && (!HasValue(val) ==> line[col..] == val.name + ";")
  {
    var rest := if HasValue(val) then PadRight(val.name, maxLenName + 1) + (" = " + text + ";") else val.name + ";";
    var col := 3 * ind + maxLen + 1;
    PaddedAfter(3 * ind, lhs, maxLen + 1, rest);
    if HasValue(val) {
      var line := MemberLine(ind, maxLen, maxLenName, lhs, val, text);
      PaddedColumn(val.name, maxLenName + 1, " = " + text + ";");
      Suffix(line, col, rest, |val.name|, maxLenName + 1);
    }
  }

  /** A member's storage keywords come first: the left-hand side of a
    * static constexpr member is "static constexpr " and the rest. */
  lemma StorageFirst(dic: Dic, prefixLut: map<string, seq<string>>, structKey: string, val: Member)
    ensures var plain := GetStructMemberLHS(dic, prefixLut, structKey, val.(isStatic := false, isConstexpr := false));
      GetStructMemberLHS(dic, prefixLut, structKey, val)
      == (if val.isStatic then "static " else "") + (if val.isConstexpr then "constexpr " else "") + plain
  {
  }

  // ---------------------------------------------------------------------
  // WriteStruct
  // ---------------------------------------------------------------------

  /** The anonymous union block, when the struct has union members. */
  function UnionLines(dic: Dic, prefixLut: map<string, seq<string>>, structKey: string, unionMembers: seq<Member>,
                      ind: nat, wrap: string -> seq<string>): seq<string>
  {
    if unionMembers == [] then []
    else Braced(Spaces(3 * (ind + 1)), "union", StructMembersLines(dic, prefixLut, structKey, unionMembers, ind + 2, wrap))
  }

  /** The head of the struct: its comment, `struct N` and `{`. */
  function StructHeadLines(obj: Decl, ind: nat, wrap: string -> seq<string>): seq<string>
    requires obj.Struct?
  {
    var ws := Spaces(3 * ind);
    OptComment(obj.comment, ind, wrap) + [ws + "struct " + obj.name, ws + "{"]
  }

  /** What WriteStruct prints: the head, the members one level in, the
    * union, `};`. C++-only structs are printed like any other. */
  function StructLines(dic: Dic, prefixLut: map<string, seq<string>>, key: string, obj: Decl, ind: nat,
                       wrap: string -> seq<string>): seq<string>
    requires obj.Struct?
  {
    StructHeadLines(obj, ind, wrap) +
    (if obj.members != [] then StructMembersLines(dic, prefixLut, key, obj.members, ind + 1, wrap) else []) +
    UnionLines(dic, prefixLut, key, obj.unionMembers, ind, wrap) +
    [Spaces(3 * ind) + "};"]
  }

  /** The lines after o once the union block is printed, appended one at a
    * time as WriteUnion prints them. */
  function UnionAfter(o: seq<string>, dic: Dic, prefixLut: map<string, seq<string>>, structKey: string,
                      unionMembers: seq<Member>, ind: nat, wrap: string -> seq<string>): seq<string>
  {
    if unionMembers == [] then o
    else
      var ws1 := Spaces(3 * (ind + 1));
      o + [""] + [ws1 + "union"] + [ws1 + "{"] +
      StructMembersLines(dic, prefixLut, structKey, unionMembers, ind + 2, wrap) + [ws1 + "};"]
  }

  method WriteUnionAfter(out: Stdout, dic: Dic, prefixLut: map<string, seq<string>>, structKey: string,
                         unionMembers: seq<Member>, ind: nat, wrap: string -> seq<string>)
    modifies out
    ensures out.lines == UnionAfter(old(out.lines), dic, prefixLut, structKey, unionMembers, ind, wrap)
  {
    if unionMembers != [] {
      var ws1 := GetWhitespace(ind + 1);
      WriteBracedOpen(out, ws1, "union");
      WriteStructMembers(out, dic, prefixLut, structKey, unionMembers, ind + 2, wrap);
      out.Print(ws1 + "};");
    }
  }

  /** Printing the union block appends UnionLines. */
  lemma UnionAfterLines(o: seq<string>, dic: Dic, prefixLut: map<string, seq<string>>, structKey: string,
                        unionMembers: seq<Member>, ind: nat, wrap: string -> seq<string>)
    ensures UnionAfter(o, dic, prefixLut, structKey, unionMembers, ind, wrap)
         == o + UnionLines(dic, prefixLut, structKey, unionMembers, ind, wrap)
  {
    if unionMembers != [] {
      BracedShift(o, Spaces(3 * (ind + 1)), "union",
                  StructMembersLines(dic, prefixLut, structKey, unionMembers, ind + 2, wrap));
    }
  }

  method WriteUnion(out: Stdout, dic: Dic, prefixLut: map<string, seq<string>>, structKey: string,
                    unionMembers: seq<Member>, ind: nat, wrap: string -> seq<string>)
    modifies out
    ensures out.lines == old(out.lines) + UnionLines(dic, prefixLut, structKey, unionMembers, ind, wrap)
  {
    WriteUnionAfter(out, dic, prefixLut, structKey, unionMembers, ind, wrap);
    UnionAfterLines(old(out.lines), dic, prefixLut, structKey, unionMembers, ind, wrap);
  }

  method WriteStructHead(out: Stdout, obj: Decl, ind: nat, wrap: string -> seq<string>)
    requires obj.Struct?
    modifies out
    ensures out.lines == old(out.lines) + StructHeadLines(obj, ind, wrap)
  {
    var ws := GetWhitespace(ind);
    WriteOptComment(out, obj.comment, ind, wrap);
    ghost var comment := OptComment(obj.comment, ind, wrap);
    ghost var o1 := out.lines;
    out.Print(ws + "struct " + obj.name);
    out.Print(ws + "{");
    assert out.lines == old(out.lines) + StructHeadLines(obj, ind, wrap) by {
      assert out.lines == o1 + [ws + "struct " + obj.name, ws + "{"];
      AppendAssoc(old(out.lines), comment, [ws + "struct " + obj.name, ws + "{"]);
    }
  }

  method WriteStruct(out: Stdout, dic: Dic, prefixLut: map<string, seq<string>>, key: string, obj: Decl, ind: nat,
                     wrap: string -> seq<string>)
    requires obj.Struct?
    modifies out
    ensures out.lines == old(out.lines) + StructLines(dic, prefixLut, key, obj, ind, wrap)
  {
    var ws := GetWhitespace(ind);
    WriteStructHead(out, obj, ind, wrap);
    ghost var head := StructHeadLines(obj, ind, wrap);
    ghost var o1 := out.lines;
    if obj.members != [] {
      WriteStructMembers(out, dic, prefixLut, key, obj.members, ind + 1, wrap);
    }
    ghost var members := if obj.members != [] then StructMembersLines(dic, prefixLut, key, obj.members, ind + 1, wrap) else [];
    ghost var o2 := out.lines;
    WriteUnion(out, dic, prefixLut, key, obj.unionMembers, ind, wrap);
    ghost var union := UnionLines(dic, prefixLut, key, obj.unionMembers, ind, wrap);
    ghost var o3 := out.lines;
    out.Print(ws + "};");
    assert out.lines == old(out.lines) + StructLines(dic, prefixLut, key, obj, ind, wrap) by {
      assert o2 == o1 + members;
      assert o3 == o2 + union;
      assert out.lines == o3 + [ws + "};"];
      AppendAssoc(old(out.lines), head, members);
      AppendAssoc(old(out.lines), head + members, union);
      AppendAssoc(old(out.lines), head + members + union, [ws + "};"]);
    }
  }

  // ---------------------------------------------------------------------
  // WriteFunction
  // ---------------------------------------------------------------------

  /** One parameter: "const ", the type qualified relative to the
    * function's key, "&" for a reference, "*" for a pointer, "**" for a
    * double pointer, a space and the name. */
  function ArgText(prefixLut: map<string, seq<string>>, key: string, arg: Arg): string
  {
    (if arg.isConst then "const " else "") + MinimalName(prefixLut, key, arg.typ, arg.typ) +
    (if arg.isRef then "&" else "") + (if arg.isPtr then "*" else "") + (if arg.isPtr2x then "**" else "") +
    " " + arg.name
  }

  function ArgTexts(prefixLut: map<string, seq<string>>, key: string, args: seq<Arg>): (texts: seq<string>)
    ensures |texts| == |args|
  {
    if |args| == 0 then [] else ArgTexts(prefixLut, key, args[..|args| - 1]) + [ArgText(prefixLut, key, args[|args| - 1])]
  }

  lemma ArgTextsSnoc(prefixLut: map<string, seq<string>>, key: string, args: seq<Arg>, i: nat)
    requires i < |args|
    ensures ArgTexts(prefixLut, key, args[..i + 1]) == ArgTexts(prefixLut, key, args[..i]) + [ArgText(prefixLut, key, args[i])]
  {
    assert args[..i + 1][..i] == args[..i];
  }

  /** One parameter as the loop appends it, piece by piece. */
  method WriteArg(prefixLut: map<string, seq<string>>, key: string, arg: Arg) returns (s: string)
    ensures s == ArgText(prefixLut, key, arg)
  {
    s := "";
    if arg.isConst {
      s := s + "const ";
    }
    var tn := arg.typ;
    var qualified := GetNameWithMinimalNamespace(prefixLut, key, tn, tn);
    s := s + qualified;
    if arg.isRef {
      s := s + "&";
    }
    if arg.isPtr {
      s := s + "*";
    }
    if arg.isPtr2x {
      s := s + "**";
    }
    s := s + " " + arg.name;
  }

  /** The parameter list, comma separated. */
  method ArgList(prefixLut: map<string, seq<string>>, key: string, args: seq<Arg>) returns (argStr: string)
    ensures argStr == Join(ArgTexts(prefixLut, key, args), ", ")
  {
    argStr := "";
    var isFirst := true;
    for i := 0 to |args|
      invariant isFirst == (i == 0)
      invariant argStr == Join(ArgTexts(prefixLut, key, args[..i]), ", ")
    {
      var arg := WriteArg(prefixLut, key, args[i]);
      if isFirst {
        argStr := arg;
      } else {
        argStr := argStr + ", " + arg;
      }
      isFirst := false;
      ArgTextsSnoc(prefixLut, key, args, i);
      JoinSnoc(ArgTexts(prefixLut, key, args[..i]), ", ", arg);
    }
    assert args[..|args|] == args;
  }

  /** The declaration: `static inline`, the return type as written (never
    * qualified), "&" for a returned reference, the bare name and the
    * parameter list. */
  function FunctionDecl(prefixLut: map<string, seq<string>>, key: string, obj: Decl): string
    requires obj.Function?
  {
    "static inline " + (if obj.ret.isConst then "const " else "") + obj.ret.typ +
    (if obj.ret.isRef then "&" else "") + " " + obj.name +
    "(" + Join(ArgTexts(prefixLut, key, obj.args), ", ") + ");"
  }

  /** What WriteFunction prints: the comment and the declaration line. */
  function FunctionLines(prefixLut: map<string, seq<string>>, key: string, obj: Decl, ind: nat,
                         wrap: string -> seq<string>): seq<string>
    requires obj.Function?
  {
    OptComment(obj.comment, ind, wrap) + [Spaces(3 * ind) + FunctionDecl(prefixLut, key, obj)]
  }

  method WriteFunction(out: Stdout, prefixLut: map<string, seq<string>>, key: string, obj: Decl, ind: nat,
                       wrap: string -> seq<string>)
    requires obj.Function?
    modifies out
    ensures out.lines == old(out.lines) + FunctionLines(prefixLut, key, obj, ind, wrap)
  {
    var ws := GetWhitespace(ind);
    WriteOptComment(out, obj.comment, ind, wrap);
    ghost var comment := OptComment(obj.comment, ind, wrap);
    var ret := obj.ret;
    var lineStr := "static inline " + (if ret.isConst then "const " else "") + ret.typ +
                   (if ret.isRef then "&" else "") + " " + obj.name + "(";
    var argStr := ArgList(prefixLut, key, obj.args);
    lineStr := lineStr + argStr + ");";
    out.Print(ws + lineStr);
    AppendAssoc(old(out.lines), comment, [ws + lineStr]);
  }

  /** A parameter whose type has no recorded path, or shares every
    * namespace of it with the function, is written with its bare type, as
    * if no path were recorded at all. */
  lemma ArgBareType(prefixLut: map<string, seq<string>>, key: string, arg: Arg)
    requires arg.typ !in prefixLut || key !in prefixLut || forall x | x in prefixLut[arg.typ] :: x in prefixLut[key]
    ensures ArgText(prefixLut, key, arg) == ArgText(map[], key, arg)
  {
    assert Qualifier(prefixLut, key, arg.typ) == [];
    assert MinimalName(prefixLut, key, arg.typ, arg.typ) == arg.typ;
  }

  /** A parameter none of whose type's namespaces the function shares is
    * written with the whole path of its type. */
  lemma ArgWholePath(prefixLut: map<string, seq<string>>, key: string, arg: Arg)
    requires arg.typ in prefixLut && key in prefixLut && prefixLut[key] != [] && prefixLut[arg.typ] != []
    requires forall x | x in prefixLut[arg.typ] :: x !in prefixLut[key]
    ensures ArgText(prefixLut, key, arg) ==
      (if arg.isConst then "const " else "") + (Join(prefixLut[arg.typ], "::") + "::" + arg.typ) +
      (if arg.isRef then "&" else "") + (if arg.isPtr then "*" else "") + (if arg.isPtr2x then "**" else "") +
      " " + arg.name
  {
    QualifierDisjoint(prefixLut, key, arg.typ);
    assert MinimalName(prefixLut, key, arg.typ, arg.typ) == Join(prefixLut[arg.typ], "::") + "::" + arg.typ;
  }

  // ---------------------------------------------------------------------
  // WriteTypedef, WriteNamespace, WriteObject
  // ---------------------------------------------------------------------

  /** `using N = U;`, neither name qualified. */
  function TypedefLine(obj: Decl, ind: nat): string
    requires obj.Typedef?
  {
    Spaces(3 * ind) + "using " + obj.name + " = " + obj.underlyingType + ";"
  }

  method WriteTypedef(out: Stdout, obj: Decl, ind: nat)
    requires obj.Typedef?
    modifies out
    ensures out.lines == old(out.lines) + [TypedefLine(obj, ind)]
  {
    var name := obj.name;
    var underlyingType := obj.underlyingType;
    var ws := GetWhitespace(ind);
    out.Print(ws + "using " + name + " = " + underlyingType + ";");
  }

  /** What WriteObject prints for the declaration under `key`. */
  ghost function ObjectLines(dic: Dic, rank: map<string, nat>, bound: nat, prefixLut: map<string, seq<string>>,
                             key: string, ind: nat, wrap: string -> seq<string>): seq<string>
    requires Ranked(dic, rank) && key in dic && key in rank && rank[key] < bound
    decreases bound, 0
  {
    match dic[key]
    case Namespace(name, values) =>
      NamespaceBelow(dic, rank, key);
      NamespaceLines(dic, rank, rank[key], prefixLut, name, values, ind, wrap)
    case Struct(_, _, _, _, _) => StructLines(dic, prefixLut, key, dic[key], ind, wrap)
    case Enum(_, _, _, _) => EnumLines(dic[key], ind, wrap)
    case Function(_, _, _, _) => FunctionLines(prefixLut, key, dic[key], ind, wrap)
    case Typedef(_, _) => [TypedefLine(dic[key], ind)]
  }

  /** What WriteNamespace prints: `namespace N`, `{` and a blank line, the
    * children one level in, a blank line and `} // namespace N`. */
  ghost function NamespaceLines(dic: Dic, rank: map<string, nat>, bound: nat, prefixLut: map<string, seq<string>>,
                                name: string, values: seq<string>, ind: nat, wrap: string -> seq<string>): seq<string>
    requires Ranked(dic, rank) && Below(dic, rank, values, bound)
    decreases bound, |values| + 2
  {
    var ws := Spaces(3 * ind);
    [ws + "namespace " + name, ws + "{", ""] +
    ChildrenLines(dic, rank, bound, prefixLut, values, ind + 1, wrap) +
    ["", ws + "} // namespace " + name]
  }

  /** The children of a namespace, each at indentation `ind`, a blank line
    * between two children. */
  ghost function ChildrenLines(dic: Dic, rank: map<string, nat>, bound: nat, prefixLut: map<string, seq<string>>,
                               keys: seq<string>, ind: nat, wrap: string -> seq<string>): seq<string>
    requires Ranked(dic, rank) && Below(dic, rank, keys, bound)
    decreases bound, |keys| + 1
  {
    if |keys| == 0 then []
    else
      PrefixBelow(dic, rank, keys, bound, |keys| - 1);
      var k := keys[|keys| - 1];
      assert k in keys;
      ChildrenLines(dic, rank, bound, prefixLut, keys[..|keys| - 1], ind, wrap) +
      (if |keys| > 1 then [""] else []) +
      ObjectLines(dic, rank, bound, prefixLut, k, ind, wrap)
  }

  lemma ChildrenLinesSnoc(dic: Dic, rank: map<string, nat>, bound: nat, prefixLut: map<string, seq<string>>,
                          keys: seq<string>, i: nat, ind: nat, wrap: string -> seq<string>)
    requires Ranked(dic, rank) && Below(dic, rank, keys, bound) && i < |keys|
    ensures Below(dic, rank, keys[..i], bound) && Below(dic, rank, keys[..i + 1], bound)
    ensures keys[i] in dic && keys[i] in rank && rank[keys[i]] < bound
    ensures ChildrenLines(dic, rank, bound, prefixLut, keys[..i + 1], ind, wrap)
         == ChildrenLines(dic, rank, bound, prefixLut, keys[..i], ind, wrap) +
            (if i > 0 then [""] else []) + ObjectLines(dic, rank, bound, prefixLut, keys[i], ind, wrap)
  {
    PrefixBelow(dic, rank, keys, bound, i);
    PrefixBelow(dic, rank, keys, bound, i + 1);
    assert keys[i] in keys;
    assert keys[..i + 1][..i] == keys[..i];
  }

  /** WriteNamespace's loop: the children, a blank line between two. */
  method WriteChildren(out: Stdout, dic: Dic, ghost rank: map<string, nat>, ghost bound: nat,
                       prefixLut: map<string, seq<string>>, values: seq<string>, ind: nat, wrap: string -> seq<string>)
    requires Ranked(dic, rank) && Below(dic, rank, values, bound)
    modifies out
    ensures out.lines == old(out.lines) + ChildrenLines(dic, rank, bound, prefixLut, values, ind, wrap)
    decreases bound, |values| + 1
  {
    var first := true;
    for i := 0 to |values|
      invariant first == (i == 0)
      invariant Below(dic, rank, values[..i], bound)
      invariant out.lines == old(out.lines) + ChildrenLines(dic, rank, bound, prefixLut, values[..i], ind, wrap)
    {
      ChildrenLinesSnoc(dic, rank, bound, prefixLut, values, i, ind, wrap);
      ghost var before := out.lines;
      if !first {
        out.Print("");
      }
      ghost var blank := if i > 0 then [""] else [];
      assert out.lines == before + blank;
      first := false;
      WriteObject(out, dic, rank, bound, prefixLut, values[i], ind, wrap);
      assert out.lines == old(out.lines) + ChildrenLines(dic, rank, bound, prefixLut, values[..i + 1], ind, wrap) by {
        ghost var done := ChildrenLines(dic, rank, bound, prefixLut, values[..i], ind, wrap);
        ghost var obj := ObjectLines(dic, rank, bound, prefixLut, values[i], ind, wrap);
        assert out.lines == old(out.lines) + done + blank + obj;
        AppendAssoc(old(out.lines), done, blank);
        AppendAssoc(old(out.lines), done + blank, obj);
      }
    }
    assert values[..|values|] == values;
  }

  /** The lines after o once the namespace is printed, appended one at a
    * time as WriteNamespace prints them. */
  ghost function NamespaceAfter(o: seq<string>, dic: Dic, rank: map<string, nat>, bound: nat,
                                prefixLut: map<string, seq<string>>, name: string, values: seq<string>, ind: nat,
                                wrap: string -> seq<string>): seq<string>
    requires Ranked(dic, rank) && Below(dic, rank, values, bound)
  {
    var ws := Spaces(3 * ind);
    o + [ws + "namespace " + name] + [ws + "{"] + [""] +
    ChildrenLines(dic, rank, bound, prefixLut, values, ind + 1, wrap) + [""] + [ws + "} // namespace " + name]
  }

  /** WriteNamespace: `print(ws + "{\n")` and `print("\n" + ws + "} ...")`
    * each print two lines. */
  method WriteNamespace(out: Stdout, dic: Dic, ghost rank: map<string, nat>, ghost bound: nat,
                        prefixLut: map<string, seq<string>>, obj: Decl, ind: nat, wrap: string -> seq<string>)
    requires obj.Namespace? && Ranked(dic, rank) && Below(dic, rank, obj.values, bound)
    modifies out
    ensures out.lines == NamespaceAfter(old(out.lines), dic, rank, bound, prefixLut, obj.name, obj.values, ind, wrap)
    decreases bound, |obj.values| + 2
  {
    var name := obj.name;
    var ws := GetWhitespace(ind);
    out.Print(ws + "namespace " + name);
    out.Print(ws + "{");
    out.Print("");
    var values := obj.values;
    ghost var o1 := out.lines;
    WriteChildren(out, dic, rank, bound, prefixLut, values, ind + 1, wrap);
    assert out.lines == o1 + ChildrenLines(dic, rank, bound, prefixLut, values, ind + 1, wrap);
    out.Print("");
    out.Print(ws + "} // namespace " + name);
  }

  /** Regrouping three head lines, a body and two tail lines. */
  lemma NamespaceShift(o: seq<string>, h0: string, h1: string, h2: string, body: seq<string>, t0: string, t1: string)
    ensures o + [h0] + [h1] + [h2] + body + [t0] + [t1] == o + ([h0, h1, h2] + body + [t0, t1])
  {
  }

  /** Printing the namespace appends NamespaceLines. */
  lemma NamespaceAfterLines(o: seq<string>, dic: Dic, rank: map<string, nat>, bound: nat,
                            prefixLut: map<string, seq<string>>, name: string, values: seq<string>, ind: nat,
                            wrap: string -> seq<string>)
    requires Ranked(dic, rank) && Below(dic, rank, values, bound)
    ensures NamespaceAfter(o, dic, rank, bound, prefixLut, name, values, ind, wrap)
         == o + NamespaceLines(dic, rank, bound, prefixLut, name, values, ind, wrap)
  {
    var ws := Spaces(3 * ind);
    NamespaceShift(o, ws + "namespace " + name, ws + "{", "",
                   ChildrenLines(dic, rank, bound, prefixLut, values, ind + 1, wrap), "", ws + "} // namespace " + name);
  }

  /** WriteObject: dispatches on the declaration's type. */
  method WriteObject(out: Stdout, dic: Dic, ghost rank: map<string, nat>, ghost bound: nat,
                     prefixLut: map<string, seq<string>>, key: string, ind: nat, wrap: string -> seq<string>)
    requires Ranked(dic, rank) && key in dic && key in rank && rank[key] < bound
    modifies out
    ensures out.lines == old(out.lines) + ObjectLines(dic, rank, bound, prefixLut, key, ind, wrap)
    decreases bound, 0
  {
    var obj := dic[key];
    match obj {
      case Namespace(name, values) =>
        NamespaceBelow(dic, rank, key);
        WriteNamespace(out, dic, rank, rank[key], prefixLut, obj, ind, wrap);
        NamespaceAfterLines(old(out.lines), dic, rank, rank[key], prefixLut, name, values, ind, wrap);
      case Struct(_, _, _, _, _) =>
        WriteStruct(out, dic, prefixLut, key, obj, ind, wrap);
      case Enum(_, _, _, _) =>
        WriteEnum(out, obj, ind, wrap);
      case Function(_, _, _, _) =>
        WriteFunction(out, prefixLut, key, obj, ind, wrap);
      case Typedef(_, _) =>
        WriteTypedef(out, obj, ind);
    }
  }
}
