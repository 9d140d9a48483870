/** The C header generator (omm-sdk/scripts/_interface_gen_c.py): every
  * declaration of the schema rendered as flattened C, namespace names
  * concatenated into the identifiers, with an `<Name>Default()` factory for
  * every struct that has a member with a default value.
  *
  * Each Write* method prints to the output stream (the script's redirected
  * stdout) and is proved to print exactly the lines of a function of the
  * same inputs; the lemmas state what those lines look like. The comment
  * wrapper (`textwrap.fill`) is a parameter `wrap` that gives the wrapped
  * physical lines of one line of text. */
module CHeaderGen {
  import opened TextFormat
  import opened Schema

  /** The `prefixLut` dictionary: declaration key to its concatenated
    * namespace prefix. */
  class PrefixLut {
    var entries: map<string, string>

    constructor()
      ensures entries == map[]
    {
      entries := map[];
    }

    /** BuildTypeToPrefix: walks `layout` in order, recursing into each
      * namespace with its name appended to the prefix and recording every
      * other declaration's prefix. */
    method BuildTypeToPrefix(dic: Dic, ghost rank: map<string, nat>, ghost bound: nat,
                             prefix: string, layout: seq<string>)
      requires Ranked(dic, rank) && Below(dic, rank, layout, bound)
      modifies this
      ensures entries == PrefixTable(dic, rank, bound, prefix, layout, old(entries))
      decreases bound
    {
      for i := 0 to |layout|
        invariant entries == PrefixTable(dic, rank, bound, prefix, layout[..i], old(entries))
      {
        var key := layout[i];
        assert key in layout;
        assert layout[..i + 1][..i] == layout[..i];
        PrefixBelow(dic, rank, layout, bound, i + 1);
        var obj := dic[key];
        match obj {
          case Namespace(objName, values) =>
            NamespaceBelow(dic, rank, key);
            BuildTypeToPrefix(dic, rank, rank[key], prefix + objName, values);
          case _ =>
            entries := entries[key := prefix];
        }
      }
      assert layout[..|layout|] == layout;
    }
  }

  // ---------------------------------------------------------------------
  // WriteComment
  // ---------------------------------------------------------------------

  /** The wrapped physical lines of each manual line, in order. */
  function WrapAll(manualLines: seq<string>, wrap: string -> seq<string>): seq<string>
  {
    if |manualLines| == 0 then []
    else WrapAll(manualLines[..|manualLines| - 1], wrap) + wrap(manualLines[|manualLines| - 1])
  }

  /** What WriteComment prints: each manual line of the comment wrapped,
    * each wrapped line behind the indentation and "// ". */
  function CommentLines(inComment: string, ind: nat, wrap: string -> seq<string>): seq<string>
  {
    Commented(Spaces(3 * ind), WrapAll(SplitLines(inComment), wrap))
  }

  method WriteComment(out: Stdout, inComment: string, ind: nat, wrap: string -> seq<string>)
    modifies out
    ensures out.lines == old(out.lines) + CommentLines(inComment, ind, wrap)
  {
    var ws := GetWhitespace(ind);
    var manualLines := SplitLines(inComment);
    for i := 0 to |manualLines|
      invariant out.lines == old(out.lines) + Commented(ws, WrapAll(manualLines[..i], wrap))
    {
      var autoLines := wrap(manualLines[i]);
      ghost var printed := out.lines;
      WriteCommented(out, ws, autoLines);
      WrapAllStep(old(out.lines), ws, manualLines, i, wrap, printed, out.lines);
    }
    assert manualLines[..|manualLines|] == manualLines;
  }

  /** The inner loop of WriteComment: the wrapped lines of one manual line. */
  method WriteCommented(out: Stdout, ws: string, autoLines: seq<string>)
    modifies out
    ensures out.lines == old(out.lines) + Commented(ws, autoLines)
  {
    for j := 0 to |autoLines|
      invariant out.lines == old(out.lines) + Commented(ws, autoLines[..j])
    {
      out.Print(ws + "// " + autoLines[j]);
      assert out.lines == old(out.lines) + Commented(ws, autoLines[..j + 1]) by {
        assert autoLines[..j + 1] == autoLines[..j] + [autoLines[j]];
        CommentedSnoc(ws, autoLines[..j], autoLines[j]);
        AppendAssoc(old(out.lines), Commented(ws, autoLines[..j]), [ws + "// " + autoLines[j]]);
      }
    }
    assert autoLines[..|autoLines|] == autoLines;
  }

  /** One pass of WriteComment's outer loop appends the next manual line's
    * wrapped lines. */
  lemma WrapAllStep(o: seq<string>, ws: string, manualLines: seq<string>, i: nat, wrap: string -> seq<string>,
                    o1: seq<string>, o2: seq<string>)
    requires i < |manualLines|
    requires o1 == o + Commented(ws, WrapAll(manualLines[..i], wrap))
    requires o2 == o1 + Commented(ws, wrap(manualLines[i]))
    ensures o2 == o + Commented(ws, WrapAll(manualLines[..i + 1], wrap))
  {
    var done := WrapAll(manualLines[..i], wrap);
    CommentedAppend(ws, done, wrap(manualLines[i]));
    assert manualLines[..i + 1][..i] == manualLines[..i];
    assert WrapAll(manualLines[..i + 1], wrap) == done + wrap(manualLines[i]);
    AppendAssoc(o, Commented(ws, done), Commented(ws, wrap(manualLines[i])));
  }

  lemma {:induction false} WrapAllWidth(manualLines: seq<string>, wrap: string -> seq<string>)
    requires FillsTo120(wrap)
    ensures forall i | 0 <= i < |WrapAll(manualLines, wrap)| :: |WrapAll(manualLines, wrap)[i]| <= 120
  {
    if |manualLines| > 0 {
      WrapAllWidth(manualLines[..|manualLines| - 1], wrap);
    }
  }

  /** With a wrapper that fills to 120 columns, every comment line is the
    * indentation, "// " and at most 120 characters of text. */
  lemma CommentWidth(inComment: string, ind: nat, wrap: string -> seq<string>)
    requires FillsTo120(wrap)
    ensures forall i | 0 <= i < |CommentLines(inComment, ind, wrap)| ::
      var line := CommentLines(inComment, ind, wrap)[i];
      3 * ind + 3 <= |line| <= 3 * ind + 3 + 120 && line[..3 * ind + 3] == Spaces(3 * ind) + "// "
  {
    WrapAllWidth(SplitLines(inComment), wrap);
    var lines := CommentLines(inComment, ind, wrap);
    forall i | 0 <= i < |lines|
      ensures 3 * ind + 3 <= |lines[i]| <= 3 * ind + 3 + 120 && lines[i][..3 * ind + 3] == Spaces(3 * ind) + "// "
    {
      var text := WrapAll(SplitLines(inComment), wrap)[i];
      CommentedAt(Spaces(3 * ind), WrapAll(SplitLines(inComment), wrap), i);
      assert lines[i] == Spaces(3 * ind) + "// " + text;
      assert lines[i][..3 * ind + 3] == Spaces(3 * ind) + "// ";
    }
  }

  // ---------------------------------------------------------------------
  // WriteEnum
  // ---------------------------------------------------------------------

  /** The value tokens `<Name>_<value>`. */
  function ValueTokens(name: string, values: seq<EnumValue>): (tokens: seq<string>)
    ensures |tokens| == |values|
  {
    if |values| == 0 then []
    else ValueTokens(name, values[..|values| - 1]) + [name + "_" + values[|values| - 1].name]
  }

  lemma {:induction false} ValueTokensAt(name: string, values: seq<EnumValue>, i: nat)
    requires i < |values|
    ensures ValueTokens(name, values)[i] == name + "_" + values[i].name
  {
    if i < |values| - 1 {
      ValueTokensAt(name, values[..|values| - 1], i);
    }
  }

  lemma ValueTokensSnoc(name: string, values: seq<EnumValue>, i: nat)
    requires i < |values|
    ensures ValueTokens(name, values[..i + 1]) == ValueTokens(name, values[..i]) + [name + "_" + values[i].name]
  {
    assert values[..i + 1][..i] == values[..i];
  }

  /** One value's line: the token padded to maxLen + 1 then "= v," when it
    * has a value, the bare token and "," otherwise. */
  function EnumValueLine(prefixLut: map<string, string>, ind: nat, tp: string, maxLen: nat, val: EnumValue): string
  {
    if val.value != "" then
      Spaces(3 * ind) + (PadRight(tp, maxLen + 1) + ("= " + GetNameWithPrefix(prefixLut, val.value, val.value) + ","))
    else
      Spaces(3 * ind) + tp + ","
  }

  /** Everything printed for one value: a blank line first when asked for
    * (never before the first value), its comment, its line. */
  function EnumValueBlock(prefixLut: map<string, string>, name: string, ind: nat, maxLen: nat,
                          injectNewLine: bool, first: bool, val: EnumValue, wrap: string -> seq<string>): seq<string>
  {
    (if !first && injectNewLine then [""] else []) +
    (if val.comment != "" then CommentLines(val.comment, ind + 1, wrap) else []) +
    [EnumValueLine(prefixLut, ind + 1, name + "_" + val.name, maxLen, val)]
  }

  /** The block of every value, in order. */
  function EnumBlocks(prefixLut: map<string, string>, name: string, ind: nat, maxLen: nat,
                      injectNewLine: bool, values: seq<EnumValue>, wrap: string -> seq<string>)
    : (blocks: seq<seq<string>>)
    ensures |blocks| == |values|
  {
    seq(|values|, i requires 0 <= i < |values| =>
      EnumValueBlock(prefixLut, name, ind, maxLen, injectNewLine, i == 0, values[i], wrap))
  }

  /** The enum's C name: its key's prefix and its name. */
  function EnumName(prefixLut: map<string, string>, key: string, obj: Decl): string
    requires obj.Enum?
  {
    GetNameWithPrefix(prefixLut, key, obj.name)
  }

  /** The longest value token, the width the value lines align to. */
  function EnumWidth(prefixLut: map<string, string>, key: string, obj: Decl): nat
    requires obj.Enum?
  {
    MaxLen(ValueTokens(EnumName(prefixLut, key, obj), obj.enumValues))
  }

  /** What WriteEnum prints. */
  function EnumLines(prefixLut: map<string, string>, key: string, obj: Decl, ind: nat,
                     wrap: string -> seq<string>): seq<string>
    requires obj.Enum?
  {
    var ws := Spaces(3 * ind);
    var name := EnumName(prefixLut, key, obj);
    [ws + "typedef enum " + name, ws + "{"] +
    Concatenated(EnumBlocks(prefixLut, name, ind, EnumWidth(prefixLut, key, obj), obj.injectNewLine, obj.enumValues, wrap)) +
    [ws + "} " + name + ";"] +
    (if obj.isFlag then [ws + "OMM_DEFINE_ENUM_FLAG_OPERATORS(" + name + ");"] else [])
  }

  /** The first loop of WriteEnum: the longest value token. */
  method EnumTokenWidth(name: string, values: seq<EnumValue>) returns (maxLen: nat)
    ensures maxLen == MaxLen(ValueTokens(name, values))
  {
    maxLen := 0;
    for i := 0 to |values|
      invariant maxLen == MaxLen(ValueTokens(name, values[..i]))
    {
      var tp := name + "_" + values[i].name;
      ValueTokensSnoc(name, values, i);
      MaxLenSnoc(ValueTokens(name, values[..i]), tp);
      maxLen := if |tp| > maxLen then |tp| else maxLen;
    }
    assert values[..|values|] == values;
  }

  /** One pass of WriteEnum's second loop: the blank line, the comment and
    * the line of one value. */
  method WriteEnumValue(out: Stdout, prefixLut: map<string, string>, name: string, ind: nat, maxLen: nat,
                        injectNewLine: bool, first: bool, val: EnumValue, wrap: string -> seq<string>)
    modifies out
    ensures out.lines == old(out.lines) + EnumValueBlock(prefixLut, name, ind, maxLen, injectNewLine, first, val, wrap)
  {
    var ws1 := GetWhitespace(ind + 1);
    if !first && injectNewLine {
      out.Print("");
    }
    ghost var blank := if !first && injectNewLine then [""] else [];
    assert out.lines == old(out.lines) + blank;
    var tp := name + "_" + val.name;
    if val.comment != "" {
      WriteComment(out, val.comment, ind + 1, wrap);
    }
    ghost var comment := if val.comment != "" then CommentLines(val.comment, ind + 1, wrap) else [];
    assert out.lines == old(out.lines) + blank + comment;
    if val.value != "" {
      var v := GetNameWithPrefix(prefixLut, val.value, val.value);
      out.Print(ws1 + (PadRight(tp, maxLen + 1) + ("= " + v + ",")));
    } else {
      out.Print(ws1 + tp + ",");
    }
    assert out.lines == old(out.lines) + EnumValueBlock(prefixLut, name, ind, maxLen, injectNewLine, first, val, wrap) by {
      var line := EnumValueLine(prefixLut, ind + 1, tp, maxLen, val);
      assert out.lines == old(out.lines) + blank + comment + [line];
      AppendAssoc(old(out.lines), blank, comment);
      AppendAssoc(old(out.lines), blank + comment, [line]);
    }
  }

  /** WriteEnum's second loop: every value's block in order. */
  method WriteEnumBody(out: Stdout, prefixLut: map<string, string>, name: string, ind: nat, maxLen: nat,
                       injectNewLine: bool, values: seq<EnumValue>, wrap: string -> seq<string>)
    modifies out
    ensures out.lines == old(out.lines) + Concatenated(EnumBlocks(prefixLut, name, ind, maxLen, injectNewLine, values, wrap))
  {
    ghost var blocks := EnumBlocks(prefixLut, name, ind, maxLen, injectNewLine, values, wrap);
    var first := true;
    for i := 0 to |values|
      invariant first == (i == 0)
      invariant out.lines == old(out.lines) + Concatenated(blocks[..i])
    {
      ghost var o1 := out.lines;
      WriteEnumValue(out, prefixLut, name, ind, maxLen, injectNewLine, first, values[i], wrap);
      ConcatenatedStep(old(out.lines), blocks, i, o1, out.lines);
      first := false;
    }
    assert blocks[..|values|] == blocks;
  }

  method WriteEnum(out: Stdout, prefixLut: map<string, string>, key: string, obj: Decl, ind: nat,
                   wrap: string -> seq<string>)
    requires obj.Enum?
    modifies out
    ensures out.lines == old(out.lines) + EnumLines(prefixLut, key, obj, ind, wrap)
  {
    var values := obj.enumValues;
    var ws := GetWhitespace(ind);
    var name := GetNameWithPrefix(prefixLut, key, obj.name);
    var maxLen := EnumTokenWidth(name, values);

    out.Print(ws + "typedef enum " + name);
    out.Print(ws + "{");
    ghost var header := [ws + "typedef enum " + name, ws + "{"];
    ghost var start := out.lines;
    assert start == old(out.lines) + header;
    WriteEnumBody(out, prefixLut, name, ind, maxLen, obj.injectNewLine, values, wrap);
    ghost var body := Concatenated(EnumBlocks(prefixLut, name, ind, maxLen, obj.injectNewLine, values, wrap));
    out.Print(ws + "} " + name + ";");
    if obj.isFlag {
      out.Print(ws + "OMM_DEFINE_ENUM_FLAG_OPERATORS(" + name + ");");
    }
    ghost var flag := if obj.isFlag then [ws + "OMM_DEFINE_ENUM_FLAG_OPERATORS(" + name + ");"] else [];
    assert out.lines == start + body + [ws + "} " + name + ";"] + flag;
    assert EnumLines(prefixLut, key, obj, ind, wrap) == header + body + [ws + "} " + name + ";"] + flag by {
      assert EnumName(prefixLut, key, obj) == name;
      assert EnumWidth(prefixLut, key, obj) == maxLen;
    }
    assert out.lines == old(out.lines) + EnumLines(prefixLut, key, obj, ind, wrap) by {
      AppendAssoc(old(out.lines), header, body);
      AppendAssoc(old(out.lines), header + body, [ws + "} " + name + ";"]);
      AppendAssoc(old(out.lines), header + body + [ws + "} " + name + ";"], flag);
    }
  }

  /** Line k of the enum's body is line 2 + k of the enum. */
  lemma EnumBodyInLines(prefixLut: map<string, string>, key: string, obj: Decl, ind: nat,
                        wrap: string -> seq<string>, k: nat)
    requires obj.Enum?
    requires k < |Concatenated(EnumBlocks(prefixLut, EnumName(prefixLut, key, obj), ind, EnumWidth(prefixLut, key, obj),
                                          obj.injectNewLine, obj.enumValues, wrap))|
    ensures 2 + k < |EnumLines(prefixLut, key, obj, ind, wrap)|
    ensures EnumLines(prefixLut, key, obj, ind, wrap)[2 + k]
         == Concatenated(EnumBlocks(prefixLut, EnumName(prefixLut, key, obj), ind, EnumWidth(prefixLut, key, obj),
                                    obj.injectNewLine, obj.enumValues, wrap))[k]
  {
    var ws := Spaces(3 * ind);
    var name := EnumName(prefixLut, key, obj);
    var head := [ws + "typedef enum " + name, ws + "{"];
    var mid := Concatenated(EnumBlocks(prefixLut, name, ind, EnumWidth(prefixLut, key, obj), obj.injectNewLine,
                                       obj.enumValues, wrap));
    var flag := if obj.isFlag then [ws + "OMM_DEFINE_ENUM_FLAG_OPERATORS(" + name + ");"] else [];
    assert EnumLines(prefixLut, key, obj, ind, wrap) == head + mid + [ws + "} " + name + ";"] + flag;
    IndexBetween(head, mid, [ws + "} " + name + ";"], flag, k);
  }

  /** No value token is wider than the width the value lines align to. */
  lemma EnumTokenFits(prefixLut: map<string, string>, key: string, obj: Decl, i: nat)
    requires obj.Enum? && i < |obj.enumValues|
    ensures |EnumName(prefixLut, key, obj) + "_" + obj.enumValues[i].name| <= EnumWidth(prefixLut, key, obj)
  {
    ValueTokensAt(EnumName(prefixLut, key, obj), obj.enumValues, i);
    MaxLenBound(ValueTokens(EnumName(prefixLut, key, obj), obj.enumValues), i);
  }

  /** The columns of a value line with an explicit value: the indentation,
    * the token, spaces up to one column past the width, then "= v," with
    * the value flattened. */
  lemma EnumValueColumns(prefixLut: map<string, string>, ind: nat, tp: string, maxLen: nat, val: EnumValue,
                         line: string)
    requires |tp| <= maxLen && val.value != "" && line == EnumValueLine(prefixLut, ind, tp, maxLen, val)
    ensures Columns(line, 3 * ind, tp, maxLen + 1, "= " + GetNameWithPrefix(prefixLut, val.value, val.value) + ",")
  {
    PaddedAfter(3 * ind, tp, maxLen + 1, "= " + GetNameWithPrefix(prefixLut, val.value, val.value) + ",");
  }

  /** The block of a value with an explicit value ends with its line laid
    * out in columns. */
  lemma EnumBlockColumns(prefixLut: map<string, string>, name: string, ind: nat, width: nat, injectNewLine: bool,
                         values: seq<EnumValue>, wrap: string -> seq<string>, i: nat)
    requires i < |values| && values[i].value != "" && |name + "_" + values[i].name| <= width
    ensures var block := EnumBlocks(prefixLut, name, ind, width, injectNewLine, values, wrap)[i];
      && |block| > 0
      && Columns(block[|block| - 1], 3 * (ind + 1), name + "_" + values[i].name, width + 1,
                 "= " + GetNameWithPrefix(prefixLut, values[i].value, values[i].value) + ",")
  {
    var block := EnumBlocks(prefixLut, name, ind, width, injectNewLine, values, wrap)[i];
    assert block == EnumValueBlock(prefixLut, name, ind, width, injectNewLine, i == 0, values[i], wrap);
    EnumValueColumns(prefixLut, ind + 1, name + "_" + values[i].name, width, values[i], block[|block| - 1]);
  }

  /** A value with an explicit value has, at index k of the enum's body,
    * its token after the indentation and "= v," one column past the width. */
  lemma EnumBodyAligned(prefixLut: map<string, string>, name: string, ind: nat, width: nat, injectNewLine: bool,
                        values: seq<EnumValue>, wrap: string -> seq<string>, i: nat)
    returns (k: nat)
    requires i < |values| && values[i].value != "" && |name + "_" + values[i].name| <= width
    ensures k < |Concatenated(EnumBlocks(prefixLut, name, ind, width, injectNewLine, values, wrap))|
    ensures Columns(Concatenated(EnumBlocks(prefixLut, name, ind, width, injectNewLine, values, wrap))[k],
                    3 * (ind + 1), name + "_" + values[i].name, width + 1,
                    "= " + GetNameWithPrefix(prefixLut, values[i].value, values[i].value) + ",")
  {
    EnumBlockColumns(prefixLut, name, ind, width, injectNewLine, values, wrap, i);
    k := ConcatenatedColumns(EnumBlocks(prefixLut, name, ind, width, injectNewLine, values, wrap), i,
                             3 * (ind + 1), name + "_" + values[i].name, width + 1,
                             "= " + GetNameWithPrefix(prefixLut, values[i].value, values[i].value) + ",");
  }

  /** Every value with an explicit value has its line among the enum's
    * lines, at index j: its `<Name>_<value>` token after the indentation,
    * and its "= v," one column past the longest token. */
  lemma EnumValueAligned(prefixLut: map<string, string>, key: string, obj: Decl, ind: nat,
                         wrap: string -> seq<string>, i: nat)
    returns (j: nat)
    requires obj.Enum? && i < |obj.enumValues| && obj.enumValues[i].value != ""
    ensures j < |EnumLines(prefixLut, key, obj, ind, wrap)|
    ensures
      var val := obj.enumValues[i];
      var tp := EnumName(prefixLut, key, obj) + "_" + val.name;
      && |tp| <= EnumWidth(prefixLut, key, obj)
      && Columns(EnumLines(prefixLut, key, obj, ind, wrap)[j], 3 * (ind + 1), tp, EnumWidth(prefixLut, key, obj) + 1,
                 "= " + GetNameWithPrefix(prefixLut, val.value, val.value) + ",")
  {
    EnumTokenFits(prefixLut, key, obj, i);
    var k := EnumBodyAligned(prefixLut, EnumName(prefixLut, key, obj), ind, EnumWidth(prefixLut, key, obj),
                             obj.injectNewLine, obj.enumValues, wrap, i);
    EnumBodyInLines(prefixLut, key, obj, ind, wrap, k);
    j := 2 + k;
  }

  // ---------------------------------------------------------------------
  // WriteStructMembers
  // ---------------------------------------------------------------------

  /** GetStructMemberLHS: everything before a member's name: "const ", the
    * flattened type name ("bool" becomes "ommBool") and "*". The script
    * also builds a "static "/"constexpr " string that it does not return. */
  function GetStructMemberLHS(dic: Dic, prefixLut: map<string, string>, val: Member): string
  {
    var tp := GetNameWithPrefix(prefixLut, val.typ, TypeName(dic, val.typ));
    (if val.isConst then "const " else "") + (if tp == "bool" then "ommBool" else tp) + (if val.isPtr then "*" else "")
  }

  /** The left-hand sides of a member list, in order. */
  function MemberLHSs(dic: Dic, prefixLut: map<string, string>, members: seq<Member>): (lhss: seq<string>)
    ensures |lhss| == |members|
  {
    if |members| == 0 then []
    else MemberLHSs(dic, prefixLut, members[..|members| - 1]) + [GetStructMemberLHS(dic, prefixLut, members[|members| - 1])]
  }

  lemma {:induction false} MemberLHSsAt(dic: Dic, prefixLut: map<string, string>, members: seq<Member>, i: nat)
    requires i < |members|
    ensures MemberLHSs(dic, prefixLut, members)[i] == GetStructMemberLHS(dic, prefixLut, members[i])
  {
    if i < |members| - 1 {
      MemberLHSsAt(dic, prefixLut, members[..|members| - 1], i);
    }
  }

  lemma MemberLHSsSnoc(dic: Dic, prefixLut: map<string, string>, members: seq<Member>, i: nat)
    requires i < |members|
    ensures MemberLHSs(dic, prefixLut, members[..i + 1])
         == MemberLHSs(dic, prefixLut, members[..i]) + [GetStructMemberLHS(dic, prefixLut, members[i])]
  {
    assert members[..i + 1][..i] == members[..i];
  }

  /** One member's declaration line: the left-hand side padded to
    * maxLen + 1, the name, ";". */
  function MemberLine(ind: nat, lhs: string, maxLen: nat, name: string): string
  {
    Spaces(3 * ind) + PadRight(lhs, maxLen + 1) + name + ";"
  }

  /** The comment printed before a member: none when it has no comment. */
  function MemberComment(val: Member, ind: nat, wrap: string -> seq<string>): seq<string>
  {
    if val.comment != "" then CommentLines(val.comment, ind, wrap) else []
  }

  /** The comments of a member list, in order. */
  function MemberComments(members: seq<Member>, ind: nat, wrap: string -> seq<string>): (comments: seq<seq<string>>)
    ensures |comments| == |members|
  {
    if |members| == 0 then []
    else MemberComments(members[..|members| - 1], ind, wrap) + [MemberComment(members[|members| - 1], ind, wrap)]
  }

  lemma {:induction false} MemberCommentsAt(members: seq<Member>, ind: nat, wrap: string -> seq<string>, i: nat)
    requires i < |members|
    ensures MemberComments(members, ind, wrap)[i] == MemberComment(members[i], ind, wrap)
  {
    if i < |members| - 1 {
      MemberCommentsAt(members[..|members| - 1], ind, wrap, i);
    }
  }

  /** Everything printed for one member: its comment, its line. */
  function MemberBlock(ind: nat, maxLen: nat, lhs: string, comment: seq<string>, name: string): seq<string>
  {
    comment + [MemberLine(ind, lhs, maxLen, name)]
  }

  /** The blocks of a member list whose left-hand sides are `lhss` and
    * whose comments are `comments`. */
  function MembersBody(ind: nat, maxLen: nat, members: seq<Member>, lhss: seq<string>,
                       comments: seq<seq<string>>): seq<string>
    requires |lhss| == |members| && |comments| == |members|
  {
    if |members| == 0 then []
    else
      var n := |members| - 1;
      MembersBody(ind, maxLen, members[..n], lhss[..n], comments[..n]) +
      MemberBlock(ind, maxLen, lhss[n], comments[n], members[n].name)
  }

  /** What WriteStructMembers prints: every member's block, the names
    * aligned one column past the longest left-hand side. */
  function StructMembersLines(dic: Dic, prefixLut: map<string, string>, members: seq<Member>, ind: nat,
                              wrap: string -> seq<string>): seq<string>
  {
    var lhss := MemberLHSs(dic, prefixLut, members);
    MembersBody(ind, MaxLen(lhss), members, lhss, MemberComments(members, ind, wrap))
  }

  /** The first loop of WriteStructMembers: the longest left-hand side. */
  method MemberWidth(dic: Dic, prefixLut: map<string, string>, members: seq<Member>) returns (maxLen: nat)
    ensures maxLen == MaxLen(MemberLHSs(dic, prefixLut, members))
  {
    maxLen := 0;
    for i := 0 to |members|
      invariant maxLen == MaxLen(MemberLHSs(dic, prefixLut, members[..i]))
    {
      var lhs := GetStructMemberLHS(dic, prefixLut, members[i]);
      MemberLHSsSnoc(dic, prefixLut, members, i);
      MaxLenSnoc(MemberLHSs(dic, prefixLut, members[..i]), lhs);
      maxLen := if |lhs| > maxLen then |lhs| else maxLen;
    }
    assert members[..|members|] == members;
  }

  /** The lines after o once one member is printed: its comment, then its
    * declaration line. */
  function MemberAfter(o: seq<string>, ind: nat, maxLen: nat, lhs: string, comment: seq<string>, name: string): seq<string>
  {
    o + comment + [MemberLine(ind, lhs, maxLen, name)]
  }

  lemma MemberAfterBlock(o: seq<string>, ind: nat, maxLen: nat, lhs: string, comment: seq<string>, name: string)
    ensures MemberAfter(o, ind, maxLen, lhs, comment, name) == o + MemberBlock(ind, maxLen, lhs, comment, name)
  {
    AppendAssoc(o, comment, [MemberLine(ind, lhs, maxLen, name)]);
  }

  /** The left-hand side of member i, as the member loop computes it. */
  method MemberLHSAt(dic: Dic, prefixLut: map<string, string>, members: seq<Member>, i: nat) returns (lhs: string)
    requires i < |members|
    ensures lhs == MemberLHSs(dic, prefixLut, members)[i]
  {
    lhs := GetStructMemberLHS(dic, prefixLut, members[i]);
    MemberLHSsAt(dic, prefixLut, members, i);
  }

  /** One pass of WriteStructMembers' second loop, once the left-hand side
    * is known. (The loop also recomputes the member's type name, which it
    * does not use.) */
  method WriteStructMember(out: Stdout, ind: nat, maxLen: nat, lhs: string, members: seq<Member>, i: nat,
                           wrap: string -> seq<string>)
    requires i < |members|
    modifies out
    ensures out.lines == MemberAfter(old(out.lines), ind, maxLen, lhs, MemberComments(members, ind, wrap)[i], members[i].name)
  {
    var val := members[i];
    var ws := GetWhitespace(ind);
    if val.comment != "" {
      WriteComment(out, val.comment, ind, wrap);
    } else {
      assert out.lines == old(out.lines) + [];
    }
    out.Print(ws + PadRight(lhs, maxLen + 1) + val.name + ";");
    MemberCommentsAt(members, ind, wrap, i);
  }

  /** The lines after o once the member blocks are printed, one block at a
    * time as the member loop prints them. */
  function MembersAfter(o: seq<string>, ind: nat, maxLen: nat, members: seq<Member>, lhss: seq<string>,
                        comments: seq<seq<string>>): seq<string>
    requires |lhss| == |members| && |comments| == |members|
  {
    if |members| == 0 then o
    else
      var n := |members| - 1;
      MemberAfter(MembersAfter(o, ind, maxLen, members[..n], lhss[..n], comments[..n]),
                  ind, maxLen, lhss[n], comments[n], members[n].name)
  }

  lemma MembersAfterSnoc(o: seq<string>, ind: nat, maxLen: nat, members: seq<Member>, lhss: seq<string>,
                         comments: seq<seq<string>>, i: nat)
    requires |lhss| == |members| && |comments| == |members| && i < |members|
    ensures MembersAfter(o, ind, maxLen, members[..i + 1], lhss[..i + 1], comments[..i + 1])
         == MemberAfter(MembersAfter(o, ind, maxLen, members[..i], lhss[..i], comments[..i]),
                        ind, maxLen, lhss[i], comments[i], members[i].name)
  {
    assert members[..i + 1][..i] == members[..i];
    assert lhss[..i + 1][..i] == lhss[..i];
    assert comments[..i + 1][..i] == comments[..i];
  }

  /** Printing the member blocks appends MembersBody. */
  lemma {:induction false} MembersAfterBody(o: seq<string>, ind: nat, maxLen: nat, members: seq<Member>,
                                            lhss: seq<string>, comments: seq<seq<string>>)
    requires |lhss| == |members| && |comments| == |members|
    ensures MembersAfter(o, ind, maxLen, members, lhss, comments) == o + MembersBody(ind, maxLen, members, lhss, comments)
  {
    if |members| > 0 {
      var n := |members| - 1;
      var front := MembersBody(ind, maxLen, members[..n], lhss[..n], comments[..n]);
      var block := MemberBlock(ind, maxLen, lhss[n], comments[n], members[n].name);
      MembersAfterBody(o, ind, maxLen, members[..n], lhss[..n], comments[..n]);
      MemberAfterBlock(o + front, ind, maxLen, lhss[n], comments[n], members[n].name);
      AppendAssoc(o, front, block);
    }
  }

  /** The member loop: each member's block in turn. */
  method WriteMembersAfter(out: Stdout, dic: Dic, prefixLut: map<string, string>, members: seq<Member>,
                           ind: nat, maxLen: nat, wrap: string -> seq<string>)
    modifies out
    ensures out.lines == MembersAfter(old(out.lines), ind, maxLen, members, MemberLHSs(dic, prefixLut, members),
                                      MemberComments(members, ind, wrap))
  {
    ghost var lhss := MemberLHSs(dic, prefixLut, members);
    ghost var comments := MemberComments(members, ind, wrap);
    for i := 0 to |members|
      invariant out.lines == MembersAfter(old(out.lines), ind, maxLen, members[..i], lhss[..i], comments[..i])
    {
      var lhs := MemberLHSAt(dic, prefixLut, members, i);
      WriteStructMember(out, ind, maxLen, lhs, members, i, wrap);
      MembersAfterSnoc(old(out.lines), ind, maxLen, members, lhss, comments, i);
    }
    assert members[..|members|] == members;
    assert lhss[..|members|] == lhss;
    assert comments[..|members|] == comments;
  }

  method WriteStructMembers(out: Stdout, dic: Dic, prefixLut: map<string, string>, members: seq<Member>,
                            ind: nat, wrap: string -> seq<string>)
    modifies out
    ensures out.lines == old(out.lines) + StructMembersLines(dic, prefixLut, members, ind, wrap)
  {
    var maxLen := MemberWidth(dic, prefixLut, members);
    WriteMembersAfter(out, dic, prefixLut, members, ind, maxLen, wrap);
    MembersAfterBody(old(out.lines), ind, maxLen, members, MemberLHSs(dic, prefixLut, members),
                     MemberComments(members, ind, wrap));
  }

  /** The block of every member, in order. */
  function MemberBlocks(ind: nat, maxLen: nat, members: seq<Member>, lhss: seq<string>,
                        comments: seq<seq<string>>): (blocks: seq<seq<string>>)
    requires |lhss| == |members| && |comments| == |members|
    ensures |blocks| == |members|
  {
    if |members| == 0 then []
    else
      var n := |members| - 1;
      MemberBlocks(ind, maxLen, members[..n], lhss[..n], comments[..n]) +
      [MemberBlock(ind, maxLen, lhss[n], comments[n], members[n].name)]
  }

  lemma {:induction false} MemberBlocksAt(ind: nat, maxLen: nat, members: seq<Member>, lhss: seq<string>,
                                          comments: seq<seq<string>>, i: nat)
    requires |lhss| == |members| && |comments| == |members| && i < |members|
    ensures MemberBlocks(ind, maxLen, members, lhss, comments)[i]
         == MemberBlock(ind, maxLen, lhss[i], comments[i], members[i].name)
  {
    var n := |members| - 1;
    var before := MemberBlocks(ind, maxLen, members[..n], lhss[..n], comments[..n]);
    assert MemberBlocks(ind, maxLen, members, lhss, comments)
        == before + [MemberBlock(ind, maxLen, lhss[n], comments[n], members[n].name)];
    if i < n {
      MemberBlocksAt(ind, maxLen, members[..n], lhss[..n], comments[..n], i);
      assert members[..n][i] == members[i] && lhss[..n][i] == lhss[i] && comments[..n][i] == comments[i];
    }
  }

  /** The member lines are the member blocks concatenated. */
  lemma {:induction false} MembersBodyBlocks(ind: nat, maxLen: nat, members: seq<Member>, lhss: seq<string>,
                                             comments: seq<seq<string>>)
    requires |lhss| == |members| && |comments| == |members|
    ensures MembersBody(ind, maxLen, members, lhss, comments)
         == Concatenated(MemberBlocks(ind, maxLen, members, lhss, comments))
  {
    if |members| > 0 {
      var n := |members| - 1;
      var blocks := MemberBlocks(ind, maxLen, members, lhss, comments);
      MembersBodyBlocks(ind, maxLen, members[..n], lhss[..n], comments[..n]);
      assert blocks[..n] == MemberBlocks(ind, maxLen, members[..n], lhss[..n], comments[..n]);
    }
  }

  /** Every member's line is among the lines printed, at index j. */
  lemma MembersBodyLineAt(ind: nat, maxLen: nat, members: seq<Member>, lhss: seq<string>,
                          comments: seq<seq<string>>, i: nat)
    returns (j: nat)
    requires |lhss| == |members| && |comments| == |members| && i < |members|
    ensures j < |MembersBody(ind, maxLen, members, lhss, comments)|
    ensures MembersBody(ind, maxLen, members, lhss, comments)[j] == MemberLine(ind, lhss[i], maxLen, members[i].name)
  {
    var blocks := MemberBlocks(ind, maxLen, members, lhss, comments);
    MembersBodyBlocks(ind, maxLen, members, lhss, comments);
    MemberBlocksAt(ind, maxLen, members, lhss, comments, i);
    j := ConcatenatedLast(blocks, i);
  }

  /** Every member has its line among the lines printed, built from its
    * left-hand side (`MemberLHSs(...)[i]`, GetStructMemberLHS of the member
    * by MemberLHSsAt) and the longest left-hand side, which it does not
    * exceed; MemberLineColumns then places the name at column
    * 3 * ind + maxLen + 1 on every such line. */
  lemma MemberNameAligned(dic: Dic, prefixLut: map<string, string>, members: seq<Member>, ind: nat,
                          wrap: string -> seq<string>, i: nat)
    returns (j: nat)
    requires i < |members|
    ensures
      var lines := StructMembersLines(dic, prefixLut, members, ind, wrap);
      var lhss := MemberLHSs(dic, prefixLut, members);
      var maxLen := MaxLen(lhss);
      && j < |lines|
      && lines[j] == MemberLine(ind, lhss[i], maxLen, members[i].name)
      && |lhss[i]| <= maxLen
  {
    var lhss := MemberLHSs(dic, prefixLut, members);
    var maxLen := MaxLen(lhss);
    j := MembersBodyLineAt(ind, maxLen, members, lhss, MemberComments(members, ind, wrap), i);
    MaxLenBound(lhss, i);
  }

  /** The columns of a member line whose left-hand side fits the width:
    * the indentation, the left-hand side, spaces, and from column
    * 3 * ind + maxLen + 1 the name and ";". */
  lemma MemberLineColumns(ind: nat, lhs: string, maxLen: nat, name: string)
    requires |lhs| <= maxLen
    ensures var line := MemberLine(ind, lhs, maxLen, name);
      && line[..3 * ind] == Spaces(3 * ind)
      && line[3 * ind..3 * ind + |lhs|] == lhs
      && line[3 * ind + maxLen + 1..] == name + ";"
  {
    var ws := Spaces(3 * ind);
    var rest := name + ";";
    PaddedColumn(lhs, maxLen + 1, rest);
    var line := MemberLine(ind, lhs, maxLen, name);
    assert line == ws + (PadRight(lhs, maxLen + 1) + rest);
    assert line[3 * ind..] == PadRight(lhs, maxLen + 1) + rest;
  }

  /** A member's static and constexpr flags never reach the C header. */
  lemma NoStorageInC(dic: Dic, prefixLut: map<string, string>, val: Member, isStatic: bool, isConstexpr: bool)
    ensures GetStructMemberLHS(dic, prefixLut, val.(isStatic := isStatic, isConstexpr := isConstexpr))
         == GetStructMemberLHS(dic, prefixLut, val)
  {
  }

  /** A plain bool member is declared with the SDK's one-byte ommBool. */
  lemma BoolIsOmmBool(dic: Dic, prefixLut: map<string, string>, val: Member)
    requires val.typ == "bool" && "bool" !in dic && "bool" !in prefixLut
    ensures GetStructMemberLHS(dic, prefixLut, val)
         == (if val.isConst then "const " else "") + "ommBool" + (if val.isPtr then "*" else "")
  {
  }

  // ---------------------------------------------------------------------
  // WriteStructMembersDefaultValue, AnyMemberHasDefaultValue,
  // WriteStructMembersDefaultInit
  // ---------------------------------------------------------------------

  /** The members that get an assignment in the default factory: a literal
    * value, or an enum-value object that names its type. */
  predicate Assigns(val: Member)
  {
    (val.value.Literal? && val.value.text != "") || (val.value.EnumRef? && val.value.typ != "")
  }

  /** The C spelling of a member's default: nullptr, true and false become
    * NULL, 1 and 0; the sentinel "default" becomes a call of the member
    * type's own factory; an enum value becomes its flattened value token. */
  function DefaultText(dic: Dic, prefixLut: map<string, string>, val: Member): string
  {
    match val.value
    case Literal(text) =>
      if text == "nullptr" then "NULL"
      else if text == "true" then "1"
      else if text == "false" then "0"
      else if text == "default" then GetNameWithPrefix(prefixLut, val.typ, val.typ) + "Default()"
      else text
    case EnumRef(_, value) => GetNameWithPrefix(prefixLut, val.typ, TypeName(dic, val.typ)) + "_" + value
    case NoValue => ""
  }

  function DefaultTexts(dic: Dic, prefixLut: map<string, string>, members: seq<Member>): (texts: seq<string>)
    ensures |texts| == |members|
  {
    if |members| == 0 then []
    else DefaultTexts(dic, prefixLut, members[..|members| - 1]) + [DefaultText(dic, prefixLut, members[|members| - 1])]
  }

  lemma {:induction false} DefaultTextsAt(dic: Dic, prefixLut: map<string, string>, members: seq<Member>, i: nat)
    requires i < |members|
    ensures DefaultTexts(dic, prefixLut, members)[i] == DefaultText(dic, prefixLut, members[i])
  {
    if i < |members| - 1 {
      DefaultTextsAt(dic, prefixLut, members[..|members| - 1], i);
    }
  }

  /** One assignment line: "v.<name>" padded to maxLen + 3, " = ", the value. */
  function DefaultLine(ind: nat, maxLen: nat, name: string, text: string): string
  {
    Spaces(3 * ind) + (PadRight("v." + name, maxLen + 3) + (" = " + text + ";"))
  }

  /** What one member contributes to the factory, its value's C text being
    * `text`. */
  function DefaultLines(ind: nat, maxLen: nat, val: Member, text: string): seq<string>
  {
    if Assigns(val) then [DefaultLine(ind, maxLen, val.name, text)] else []
  }

  function DefaultsBody(ind: nat, maxLen: nat, members: seq<Member>, texts: seq<string>): seq<string>
    requires |texts| == |members|
  {
    if |members| == 0 then []
    else
      DefaultsBody(ind, maxLen, members[..|members| - 1], texts[..|members| - 1]) +
      DefaultLines(ind, maxLen, members[|members| - 1], texts[|members| - 1])
  }

  lemma DefaultsBodySnoc(ind: nat, maxLen: nat, members: seq<Member>, texts: seq<string>, i: nat)
    requires |texts| == |members| && i < |members|
    ensures DefaultsBody(ind, maxLen, members[..i + 1], texts[..i + 1])
         == DefaultsBody(ind, maxLen, members[..i], texts[..i]) + DefaultLines(ind, maxLen, members[i], texts[i])
  {
    assert members[..i + 1][..i] == members[..i];
    assert texts[..i + 1][..i] == texts[..i];
  }

  /** What WriteStructMembersDefaultValue prints. */
  function DefaultValueLines(dic: Dic, prefixLut: map<string, string>, members: seq<Member>, ind: nat): seq<string>
  {
    DefaultsBody(ind, MaxLen(MemberNames(members)), members, DefaultTexts(dic, prefixLut, members))
  }

  /** The first loop of WriteStructMembersDefaultValue: the longest name. */
  method NameWidth(members: seq<Member>) returns (maxLen: nat)
    ensures maxLen == MaxLen(MemberNames(members))
  {
    maxLen := 0;
    for i := 0 to |members|
      invariant maxLen == MaxLen(MemberNames(members[..i]))
    {
      MemberNamesSnoc(members, i);
      MaxLenSnoc(MemberNames(members[..i]), members[i].name);
      maxLen := if |members[i].name| > maxLen then |members[i].name| else maxLen;
    }
    assert members[..|members|] == members;
  }

  /** One pass of WriteStructMembersDefaultValue's second loop. */
  method WriteMemberDefault(out: Stdout, dic: Dic, prefixLut: map<string, string>, ind: nat, maxLen: nat, val: Member)
    modifies out
    ensures out.lines == old(out.lines) + DefaultLines(ind, maxLen, val, DefaultText(dic, prefixLut, val))
  {
    var ws := GetWhitespace(ind);
    if HasValue(val) {
      match val.value {
        case Literal(text) =>
          var value := text;
          if value == "nullptr" {
            value := "NULL";
          }
          if value == "true" {
            value := "1";
          }
          if value == "false" {
            value := "0";
          }
          if value == "default" {
            var typeKey := val.typ;
            var typeName := typeKey;
            var tp := GetNameWithPrefix(prefixLut, typeKey, typeName);
            value := tp + "Default()";
          }
          out.Print(ws + (PadRight("v." + val.name, maxLen + 3) + (" = " + value + ";")));
        case EnumRef(typ, v) =>
          if typ != "" {
            var tp := GetNameWithPrefix(prefixLut, val.typ, TypeName(dic, val.typ));
            out.Print(ws + (PadRight("v." + val.name, maxLen + 3) + (" = " + (tp + "_" + v) + ";")));
          }
        case NoValue =>
      }
    }
  }

  method WriteStructMembersDefaultValue(out: Stdout, dic: Dic, prefixLut: map<string, string>,
                                        members: seq<Member>, ind: nat)
    modifies out
    ensures out.lines == old(out.lines) + DefaultValueLines(dic, prefixLut, members, ind)
  {
    var maxLen := NameWidth(members);
    ghost var texts := DefaultTexts(dic, prefixLut, members);
    for i := 0 to |members|
      invariant out.lines == old(out.lines) + DefaultsBody(ind, maxLen, members[..i], texts[..i])
    {
      DefaultTextsAt(dic, prefixLut, members, i);
      WriteMemberDefault(out, dic, prefixLut, ind, maxLen, members[i]);
      assert out.lines == old(out.lines) + DefaultsBody(ind, maxLen, members[..i + 1], texts[..i + 1]) by {
        DefaultsBodySnoc(ind, maxLen, members, texts, i);
        AppendAssoc(old(out.lines), DefaultsBody(ind, maxLen, members[..i], texts[..i]),
                    DefaultLines(ind, maxLen, members[i], texts[i]));
      }
    }
    assert members[..|members|] == members;
    assert texts[..|members|] == texts;
  }

  method AnyMemberHasDefaultValue(members: seq<Member>) returns (r: bool)
    ensures r <==> exists i :: 0 <= i < |members| && HasValue(members[i])
  {
    for i := 0 to |members|
      invariant forall k :: 0 <= k < i ==> !HasValue(members[k])
    {
      if HasValue(members[i]) {
        return true;
      }
    }
    return false;
  }

  /** What WriteStructMembersDefaultInit prints: nothing when no member has
    * a value; otherwise the whitespace line, then the factory
    * `inline <N> <N>Default()` at column 0 (the script prints it after a
    * line feed), its braces, the local `v`, the assignments one level in,
    * and `return v;`. */
  function DefaultInitLines(dic: Dic, prefixLut: map<string, string>, members: seq<Member>, name: string,
                            ind: nat): seq<string>
  {
    if !(exists i :: 0 <= i < |members| && HasValue(members[i])) then []
    else
      var ws := Spaces(3 * ind);
      var ws1 := Spaces(3 * (ind + 1));
      [ws, "inline " + name + " " + name + "Default()", ws + "{", ws1 + name + " v;"] +
      DefaultValueLines(dic, prefixLut, members, ind + 1) +
      [ws1 + "return v;", ws + "}"]
  }

  /** The lines after o once the default factory is printed, appended one
    * at a time as the method prints them. */
  function DefaultInitAfter(o: seq<string>, dic: Dic, prefixLut: map<string, string>, members: seq<Member>,
                            name: string, ind: nat): seq<string>
  {
    if !(exists i :: 0 <= i < |members| && HasValue(members[i])) then o
    else
      var ws := Spaces(3 * ind);
      var ws1 := Spaces(3 * (ind + 1));
      o + [ws] + ["inline " + name + " " + name + "Default()"] + [ws + "{"] + [ws1 + name + " v;"] +
      DefaultValueLines(dic, prefixLut, members, ind + 1) +
      [ws1 + "return v;"] + [ws + "}"]
  }

  method WriteDefaultInitAfter(out: Stdout, dic: Dic, prefixLut: map<string, string>, members: seq<Member>,
                               name: string, ind: nat)
    modifies out
    ensures out.lines == DefaultInitAfter(old(out.lines), dic, prefixLut, members, name, ind)
  {
    var any := AnyMemberHasDefaultValue(members);
    if !any {
      return;
    }
    var ws := GetWhitespace(ind);
    var ws1 := GetWhitespace(ind + 1);
    if members != [] {
      out.Print(ws);
      out.Print("inline " + name + " " + name + "Default()");
      out.Print(ws + "{");
      out.Print(ws1 + name + " v;");
      WriteStructMembersDefaultValue(out, dic, prefixLut, members, ind + 1);
      out.Print(ws1 + "return v;");
      out.Print(ws + "}");
    }
  }

  /** Regrouping four head lines, a body and two tail lines. */
  lemma FramedShift(o: seq<string>, h0: string, h1: string, h2: string, h3: string, body: seq<string>,
                    t0: string, t1: string)
    ensures o + [h0] + [h1] + [h2] + [h3] + body + [t0] + [t1] == o + ([h0, h1, h2, h3] + body + [t0, t1])
  {
  }

  /** Printing the factory appends DefaultInitLines. */
  lemma DefaultInitAfterLines(o: seq<string>, dic: Dic, prefixLut: map<string, string>, members: seq<Member>,
                              name: string, ind: nat)
    ensures DefaultInitAfter(o, dic, prefixLut, members, name, ind) == o + DefaultInitLines(dic, prefixLut, members, name, ind)
  {
    if exists i :: 0 <= i < |members| && HasValue(members[i]) {
      var ws := Spaces(3 * ind);
      var ws1 := Spaces(3 * (ind + 1));
      FramedShift(o, ws, "inline " + name + " " + name + "Default()", ws + "{", ws1 + name + " v;",
                  DefaultValueLines(dic, prefixLut, members, ind + 1), ws1 + "return v;", ws + "}");
    }
  }

  method WriteStructMembersDefaultInit(out: Stdout, dic: Dic, prefixLut: map<string, string>, obj: Decl,
                                       name: string, ind: nat)
    requires obj.Struct?
    modifies out
    ensures out.lines == old(out.lines) + DefaultInitLines(dic, prefixLut, obj.members, name, ind)
  {
    WriteDefaultInitAfter(out, dic, prefixLut, obj.members, name, ind);
    DefaultInitAfterLines(old(out.lines), dic, prefixLut, obj.members, name, ind);
  }

  /** Every member that gets an assignment has its line among the
    * assignment lines, at index j. */
  lemma {:induction false} DefaultsBodyLineAt(ind: nat, maxLen: nat, members: seq<Member>, texts: seq<string>, i: nat)
    returns (j: nat)
    requires |texts| == |members| && i < |members| && Assigns(members[i])
    ensures j < |DefaultsBody(ind, maxLen, members, texts)|
    ensures DefaultsBody(ind, maxLen, members, texts)[j] == DefaultLine(ind, maxLen, members[i].name, texts[i])
  {
    var n := |members| - 1;
    var before := DefaultsBody(ind, maxLen, members[..n], texts[..n]);
    var last := DefaultLines(ind, maxLen, members[n], texts[n]);
    assert DefaultsBody(ind, maxLen, members, texts) == before + last;
    if i == n {
      j := |before|;
    } else {
      assert members[..n][i] == members[i] && texts[..n][i] == texts[i];
      j := DefaultsBodyLineAt(ind, maxLen, members[..n], texts[..n], i);
    }
  }

  /** The columns of an assignment line whose name fits the width: the
    * indentation, "v." and the name, and from column 3 * ind + maxLen + 3
    * " = ", the value and ";". */
  lemma DefaultLineColumns(ind: nat, maxLen: nat, name: string, text: string)
    requires |name| <= maxLen
    ensures Columns(DefaultLine(ind, maxLen, name, text), 3 * ind, "v." + name, maxLen + 3, " = " + text + ";")
  {
    PaddedAfter(3 * ind, "v." + name, maxLen + 3, " = " + text + ";");
  }

  /** Every member the script can render is assigned at index k of the
    * factory's assignments, its name padded past the longest one. */
  lemma DefaultValueAligned(dic: Dic, prefixLut: map<string, string>, members: seq<Member>, ind: nat, i: nat)
    returns (k: nat)
    requires i < |members| && Assigns(members[i])
    ensures |members[i].name| <= MaxLen(MemberNames(members))
    ensures k < |DefaultValueLines(dic, prefixLut, members, ind)|
    ensures Columns(DefaultValueLines(dic, prefixLut, members, ind)[k], 3 * ind, "v." + members[i].name,
                    MaxLen(MemberNames(members)) + 3, " = " + DefaultText(dic, prefixLut, members[i]) + ";")
  {
    var maxLen := MaxLen(MemberNames(members));
    MemberNamesAt(members, i);
    MaxLenBound(MemberNames(members), i);
    DefaultTextsAt(dic, prefixLut, members, i);
    k := DefaultsBodyLineAt(ind, maxLen, members, DefaultTexts(dic, prefixLut, members), i);
    DefaultLineColumns(ind, maxLen, members[i].name, DefaultText(dic, prefixLut, members[i]));
  }

  /** Assignment k of the factory is its line 4 + k. */
  lemma DefaultsInFactory(dic: Dic, prefixLut: map<string, string>, members: seq<Member>, name: string, ind: nat,
                          k: nat)
    requires exists i :: 0 <= i < |members| && HasValue(members[i])
    requires k < |DefaultValueLines(dic, prefixLut, members, ind + 1)|
    ensures 4 + k < |DefaultInitLines(dic, prefixLut, members, name, ind)|
    ensures DefaultInitLines(dic, prefixLut, members, name, ind)[4 + k]
         == DefaultValueLines(dic, prefixLut, members, ind + 1)[k]
  {
    var ws := Spaces(3 * ind);
    var ws1 := Spaces(3 * (ind + 1));
    var head := [ws, "inline " + name + " " + name + "Default()", ws + "{", ws1 + name + " v;"];
    var mid := DefaultValueLines(dic, prefixLut, members, ind + 1);
    assert DefaultInitLines(dic, prefixLut, members, name, ind) == head + mid + [ws1 + "return v;"] + [ws + "}"];
    IndexBetween(head, mid, [ws1 + "return v;"], [ws + "}"], k);
  }

  /** The factory assigns every member whose value the script can render:
    * its line, at index j of what WriteStructMembersDefaultInit prints, is
    * "v.<name>" one level in, padded past the longest name, then " = " and
    * the member's C default. */
  lemma DefaultAssigned(dic: Dic, prefixLut: map<string, string>, members: seq<Member>, name: string, ind: nat,
                        i: nat)
    returns (j: nat)
    requires i < |members| && Assigns(members[i])
    ensures j < |DefaultInitLines(dic, prefixLut, members, name, ind)|
    ensures |members[i].name| <= MaxLen(MemberNames(members))
    ensures Columns(DefaultInitLines(dic, prefixLut, members, name, ind)[j], 3 * (ind + 1), "v." + members[i].name,
                    MaxLen(MemberNames(members)) + 3, " = " + DefaultText(dic, prefixLut, members[i]) + ";")
  {
    var k := DefaultValueAligned(dic, prefixLut, members, ind + 1, i);
    assert HasValue(members[i]);
    DefaultsInFactory(dic, prefixLut, members, name, ind, k);
    j := 4 + k;
  }

  /** The factory is printed exactly when a member has a value, and its
    * second line declares `<N>Default()` returning N. */
  lemma FactoryIff(dic: Dic, prefixLut: map<string, string>, members: seq<Member>, name: string, ind: nat)
    ensures |DefaultInitLines(dic, prefixLut, members, name, ind)| > 0 <==>
            exists i :: 0 <= i < |members| && HasValue(members[i])
    ensures |DefaultInitLines(dic, prefixLut, members, name, ind)| > 0 ==>
            DefaultInitLines(dic, prefixLut, members, name, ind)[1] == "inline " + name + " " + name + "Default()"
  {
  }

  /** A C++-only struct prints nothing; any other prints its declaration
    * and then, when a member has a value, its factory. */
  lemma StructFactory(dic: Dic, prefixLut: map<string, string>, obj: Decl, ind: nat, wrap: string -> seq<string>)
    requires obj.Struct?
    ensures obj.cppOnly ==> StructLines(dic, prefixLut, obj, ind, wrap) == []
    ensures !obj.cppOnly ==>
      var decl := StructDeclLines(dic, prefixLut, obj, ind, wrap);
      var lines := StructLines(dic, prefixLut, obj, ind, wrap);
      var n := StructName(prefixLut, obj);
      && lines[..|decl|] == decl
      && (|lines| > |decl| <==> exists i :: 0 <= i < |obj.members| && HasValue(obj.members[i]))
      && (|lines| > |decl| ==> lines[|decl| + 1] == "inline " + n + " " + n + "Default()")
  {
    if !obj.cppOnly {
      var decl := StructDeclLines(dic, prefixLut, obj, ind, wrap);
      var n := StructName(prefixLut, obj);
      var init := DefaultInitLines(dic, prefixLut, obj.members, n, ind);
      FactoryIff(dic, prefixLut, obj.members, n, ind);
      assert StructLines(dic, prefixLut, obj, ind, wrap) == decl + init;
      if |init| > 0 {
        assert (decl + init)[|decl| + 1] == init[1];
      }
    }
  }

  // ---------------------------------------------------------------------
  // WriteStruct
  // ---------------------------------------------------------------------

  /** The struct's C name: the prefix recorded for its name (the script
    * looks the prefix up by the struct's name, not its key). */
  function StructName(prefixLut: map<string, string>, obj: Decl): string
    requires obj.Struct?
  {
    GetNameWithPrefix(prefixLut, obj.name, obj.name)
  }

  /** The anonymous union block, when the struct has union members. */
  function UnionLines(dic: Dic, prefixLut: map<string, string>, unionMembers: seq<Member>, ind: nat,
                      wrap: string -> seq<string>): seq<string>
  {
    if unionMembers == [] then []
    else
      Braced(Spaces(3 * (ind + 1)), "union", StructMembersLines(dic, prefixLut, unionMembers, ind + 2, wrap))
  }

  /** The typedef'd struct: comment, `typedef struct N`, its members one level
    * in, the union, `} N;`. */
  function StructDeclLines(dic: Dic, prefixLut: map<string, string>, obj: Decl, ind: nat,
                           wrap: string -> seq<string>): seq<string>
    requires obj.Struct?
  {
    StructHeadLines(prefixLut, obj, ind, wrap) +
    (if obj.members != [] then StructMembersLines(dic, prefixLut, obj.members, ind + 1, wrap) else []) +
    UnionLines(dic, prefixLut, obj.unionMembers, ind, wrap) +
    [Spaces(3 * ind) + "} " + StructName(prefixLut, obj) + ";"]
  }

  /** What WriteStruct prints: nothing for a C++-only struct, otherwise its
    * declaration and its default factory. */
  function StructLines(dic: Dic, prefixLut: map<string, string>, obj: Decl, ind: nat,
                       wrap: string -> seq<string>): seq<string>
    requires obj.Struct?
  {
    if obj.cppOnly then []
    else StructDeclLines(dic, prefixLut, obj, ind, wrap) + DefaultInitLines(dic, prefixLut, obj.members, StructName(prefixLut, obj), ind)
  }

  /** The lines after o once the union block is printed, appended one at a
    * time as WriteUnion prints them. */
  function UnionAfter(o: seq<string>, dic: Dic, prefixLut: map<string, string>, unionMembers: seq<Member>, ind: nat,
                      wrap: string -> seq<string>): seq<string>
  {
    if unionMembers == [] then o
    else
      var ws1 := Spaces(3 * (ind + 1));
      o + [""] + [ws1 + "union"] + [ws1 + "{"] + StructMembersLines(dic, prefixLut, unionMembers, ind + 2, wrap) + [ws1 + "};"]
  }

  method WriteUnionAfter(out: Stdout, dic: Dic, prefixLut: map<string, string>, unionMembers: seq<Member>, ind: nat,
                    wrap: string -> seq<string>)
    modifies out
    ensures out.lines == UnionAfter(old(out.lines), dic, prefixLut, unionMembers, ind, wrap)
  {
    if unionMembers != [] {
      var ws1 := GetWhitespace(ind + 1);
      WriteBracedOpen(out, ws1, "union");
      WriteStructMembers(out, dic, prefixLut, unionMembers, ind + 2, wrap);
      out.Print(ws1 + "};");
    }
  }

  /** Printing the union block appends UnionLines. */
  lemma UnionAfterLines(o: seq<string>, dic: Dic, prefixLut: map<string, string>, unionMembers: seq<Member>, ind: nat,
                    wrap: string -> seq<string>)
    ensures UnionAfter(o, dic, prefixLut, unionMembers, ind, wrap) == o + UnionLines(dic, prefixLut, unionMembers, ind, wrap)
  {
    if unionMembers != [] {
      BracedShift(o, Spaces(3 * (ind + 1)), "union", StructMembersLines(dic, prefixLut, unionMembers, ind + 2, wrap));
    }
  }

  method WriteUnion(out: Stdout, dic: Dic, prefixLut: map<string, string>, unionMembers: seq<Member>, ind: nat,
                    wrap: string -> seq<string>)
    modifies out
    ensures out.lines == old(out.lines) + UnionLines(dic, prefixLut, unionMembers, ind, wrap)
  {
    WriteUnionAfter(out, dic, prefixLut, unionMembers, ind, wrap);
    UnionAfterLines(old(out.lines), dic, prefixLut, unionMembers, ind, wrap);
  }

  /** The head of the struct declaration: its comment and the opening lines. */
  function StructHeadLines(prefixLut: map<string, string>, obj: Decl, ind: nat, wrap: string -> seq<string>): seq<string>
    requires obj.Struct?
  {
    var ws := Spaces(3 * ind);
    var name := StructName(prefixLut, obj);
    (if obj.comment != "" then CommentLines(obj.comment, ind, wrap) else []) +
    [ws + "typedef struct " + name, ws + "{"]
  }

  method WriteStructHead(out: Stdout, prefixLut: map<string, string>, obj: Decl, name: string, ind: nat,
                         wrap: string -> seq<string>)
    requires obj.Struct? && name == StructName(prefixLut, obj)
    modifies out
    ensures out.lines == old(out.lines) + StructHeadLines(prefixLut, obj, ind, wrap)
  {
    var ws := GetWhitespace(ind);
    if obj.comment != "" {
      WriteComment(out, obj.comment, ind, wrap);
    }
    ghost var comment := if obj.comment != "" then CommentLines(obj.comment, ind, wrap) else [];
    ghost var o1 := out.lines;
    out.Print(ws + "typedef struct " + name);
    out.Print(ws + "{");
    assert out.lines == old(out.lines) + StructHeadLines(prefixLut, obj, ind, wrap) by {
      assert out.lines == o1 + [ws + "typedef struct " + name, ws + "{"];
      AppendAssoc(old(out.lines), comment, [ws + "typedef struct " + name, ws + "{"]);
    }
  }

  method WriteStructDecl(out: Stdout, dic: Dic, prefixLut: map<string, string>, obj: Decl, name: string, ind: nat,
                         wrap: string -> seq<string>)
    requires obj.Struct? && name == StructName(prefixLut, obj)
    modifies out
    ensures out.lines == old(out.lines) + StructDeclLines(dic, prefixLut, obj, ind, wrap)
  {
    var ws := GetWhitespace(ind);
    WriteStructHead(out, prefixLut, obj, name, ind, wrap);
    ghost var head := StructHeadLines(prefixLut, obj, ind, wrap);
    ghost var o1 := out.lines;
    if obj.members != [] {
      WriteStructMembers(out, dic, prefixLut, obj.members, ind + 1, wrap);
    }
    ghost var members := if obj.members != [] then StructMembersLines(dic, prefixLut, obj.members, ind + 1, wrap) else [];
    ghost var o2 := out.lines;
    WriteUnion(out, dic, prefixLut, obj.unionMembers, ind, wrap);
    ghost var union := UnionLines(dic, prefixLut, obj.unionMembers, ind, wrap);
    ghost var o3 := out.lines;
    out.Print(ws + "} " + name + ";");
    assert out.lines == old(out.lines) + StructDeclLines(dic, prefixLut, obj, ind, wrap) by {
      assert o2 == o1 + members;
      assert o3 == o2 + union;
      assert out.lines == o3 + [ws + "} " + name + ";"];
      AppendAssoc(old(out.lines), head, members);
      AppendAssoc(old(out.lines), head + members, union);
      AppendAssoc(old(out.lines), head + members + union, [ws + "} " + name + ";"]);
    }
  }

  method WriteStruct(out: Stdout, dic: Dic, prefixLut: map<string, string>, obj: Decl, ind: nat,
                     wrap: string -> seq<string>)
    requires obj.Struct?
    modifies out
    ensures out.lines == old(out.lines) + StructLines(dic, prefixLut, obj, ind, wrap)
  {
    if obj.cppOnly {
      return;
    }
    var name := GetNameWithPrefix(prefixLut, obj.name, obj.name);
    WriteStructDecl(out, dic, prefixLut, obj, name, ind, wrap);
    ghost var decl := StructDeclLines(dic, prefixLut, obj, ind, wrap);
    WriteStructMembersDefaultInit(out, dic, prefixLut, obj, name, ind);
    AppendAssoc(old(out.lines), decl, DefaultInitLines(dic, prefixLut, obj.members, name, ind));
  }

  // ---------------------------------------------------------------------
  // WriteFunction
  // ---------------------------------------------------------------------

  /** One parameter: "const ", the flattened type, "*" for a reference, "*"
    * for a pointer, "**" for a double pointer, a space and the name. (The
    * type is looked up by its key and `bool` is not renamed here.) */
  function ArgText(prefixLut: map<string, string>, arg: Arg): string
  {
    (if arg.isConst then "const " else "") + GetNameWithPrefix(prefixLut, arg.typ, arg.typ) +
    (if arg.isRef then "*" else "") + (if arg.isPtr then "*" else "") + (if arg.isPtr2x then "**" else "") +
    " " + arg.name
  }

  function ArgTexts(prefixLut: map<string, string>, args: seq<Arg>): (texts: seq<string>)
    ensures |texts| == |args|
  {
    if |args| == 0 then [] else ArgTexts(prefixLut, args[..|args| - 1]) + [ArgText(prefixLut, args[|args| - 1])]
  }

  lemma ArgTextsSnoc(prefixLut: map<string, string>, args: seq<Arg>, i: nat)
    requires i < |args|
    ensures ArgTexts(prefixLut, args[..i + 1]) == ArgTexts(prefixLut, args[..i]) + [ArgText(prefixLut, args[i])]
  {
    assert args[..i + 1][..i] == args[..i];
  }

  /** The parameter list, comma separated. */
  method ArgList(prefixLut: map<string, string>, args: seq<Arg>) returns (argStr: string)
    ensures argStr == Join(ArgTexts(prefixLut, args), ", ")
  {
    argStr := "";
    var isFirst := true;
    for i := 0 to |args|
      invariant isFirst == (i == 0)
      invariant argStr == Join(ArgTexts(prefixLut, args[..i]), ", ")
    {
      var arg := ArgText(prefixLut, args[i]);
      if isFirst {
        argStr := arg;
      } else {
        argStr := argStr + ", " + arg;
      }
      isFirst := false;
      ArgTextsSnoc(prefixLut, args, i);
      JoinSnoc(ArgTexts(prefixLut, args[..i]), ", ", arg);
    }
    assert args[..|args|] == args;
  }

  /** The declaration: `OMM_API`, the return type, the function's flattened
    * name and the parameter list. */
  function FunctionDecl(prefixLut: map<string, string>, key: string, obj: Decl): string
    requires obj.Function?
  {
    "OMM_API " + (if obj.ret.isConst then "const " else "") + GetNameWithPrefix(prefixLut, obj.ret.typ, obj.ret.typ) +
    (if obj.ret.isRef then "*" else "") + " " + GetNameWithPrefix(prefixLut, key, obj.name) +
    "(" + Join(ArgTexts(prefixLut, obj.args), ", ") + ");"
  }

  /** What WriteFunction prints: the comment and the declaration line. */
  function FunctionLines(prefixLut: map<string, string>, key: string, obj: Decl, ind: nat,
                         wrap: string -> seq<string>): seq<string>
    requires obj.Function?
  {
    (if obj.comment != "" then CommentLines(obj.comment, ind, wrap) else []) +
    [Spaces(3 * ind) + FunctionDecl(prefixLut, key, obj)]
  }

  method WriteFunction(out: Stdout, dic: Dic, prefixLut: map<string, string>, key: string, obj: Decl, ind: nat,
                       wrap: string -> seq<string>)
    requires obj.Function?
    modifies out
    ensures out.lines == old(out.lines) + FunctionLines(prefixLut, key, obj, ind, wrap)
  {
    var ws := GetWhitespace(ind);
    if obj.comment != "" {
      WriteComment(out, obj.comment, ind, wrap);
    }
    ghost var comment := if obj.comment != "" then CommentLines(obj.comment, ind, wrap) else [];
    var ret := obj.ret;
    var lineStr := "OMM_API " + (if ret.isConst then "const " else "") + GetNameWithPrefix(prefixLut, ret.typ, ret.typ) +
                   (if ret.isRef then "*" else "") + " " + GetNameWithPrefix(prefixLut, key, obj.name) + "(";
    var argStr := ArgList(prefixLut, obj.args);
    lineStr := lineStr + argStr + ");";
    out.Print(ws + lineStr);
    AppendAssoc(old(out.lines), comment, [ws + lineStr]);
  }

  // ---------------------------------------------------------------------
  // WriteTypedef, WriteNamespace, WriteObject
  // ---------------------------------------------------------------------

  /** `typedef U N;`, both names flattened (each looked up by its own name). */
  function TypedefLine(prefixLut: map<string, string>, obj: Decl, ind: nat): string
    requires obj.Typedef?
  {
    Spaces(3 * ind) + "typedef " + GetNameWithPrefix(prefixLut, obj.underlyingType, obj.underlyingType) + " " +
    GetNameWithPrefix(prefixLut, obj.name, obj.name) + ";"
  }

  method WriteTypedef(out: Stdout, dic: Dic, prefixLut: map<string, string>, obj: Decl, ind: nat)
    requires obj.Typedef?
    modifies out
    ensures out.lines == old(out.lines) + [TypedefLine(prefixLut, obj, ind)]
  {
    var name := GetNameWithPrefix(prefixLut, obj.name, obj.name);
    var underlyingType := GetNameWithPrefix(prefixLut, obj.underlyingType, obj.underlyingType);
    var ws := GetWhitespace(ind);
    out.Print(ws + "typedef " + underlyingType + " " + name + ";");
  }

  /** What WriteObject prints for the declaration under `key`. */
  ghost function ObjectLines(dic: Dic, rank: map<string, nat>, bound: nat, prefixLut: map<string, string>,
                             key: string, ind: nat, wrap: string -> seq<string>): seq<string>
    requires Ranked(dic, rank) && key in dic && key in rank && rank[key] < bound
    decreases bound, 0
  {
    match dic[key]
    case Namespace(_, values) =>
      NamespaceBelow(dic, rank, key);
      NamespaceLines(dic, rank, rank[key], prefixLut, values, ind, wrap)
    case Struct(_, _, _, _, _) => StructLines(dic, prefixLut, dic[key], ind, wrap)
    case Enum(_, _, _, _) => EnumLines(prefixLut, key, dic[key], ind, wrap)
    case Function(_, _, _, _) => FunctionLines(prefixLut, key, dic[key], ind, wrap)
    case Typedef(_, _) => [TypedefLine(prefixLut, dic[key], ind)]
  }

  /** What WriteNamespace prints for a namespace's `values`: each child at
    * the same indentation (C has no namespaces), a blank line between
    * children. */
  ghost function NamespaceLines(dic: Dic, rank: map<string, nat>, bound: nat, prefixLut: map<string, string>,
                                keys: seq<string>, ind: nat, wrap: string -> seq<string>): seq<string>
    requires Ranked(dic, rank) && Below(dic, rank, keys, bound)
    decreases bound, |keys| + 1
  {
    if |keys| == 0 then []
    else
      PrefixBelow(dic, rank, keys, bound, |keys| - 1);
      var k := keys[|keys| - 1];
      assert k in keys;
      NamespaceLines(dic, rank, bound, prefixLut, keys[..|keys| - 1], ind, wrap) +
      (if |keys| > 1 then [""] else []) +
      ObjectLines(dic, rank, bound, prefixLut, k, ind, wrap)
  }

  lemma NamespaceLinesSnoc(dic: Dic, rank: map<string, nat>, bound: nat, prefixLut: map<string, string>,
                           keys: seq<string>, i: nat, ind: nat, wrap: string -> seq<string>)
    requires Ranked(dic, rank) && Below(dic, rank, keys, bound) && i < |keys|
    ensures Below(dic, rank, keys[..i], bound) && Below(dic, rank, keys[..i + 1], bound)
    ensures keys[i] in dic && keys[i] in rank && rank[keys[i]] < bound
    ensures NamespaceLines(dic, rank, bound, prefixLut, keys[..i + 1], ind, wrap)
         == NamespaceLines(dic, rank, bound, prefixLut, keys[..i], ind, wrap) +
            (if i > 0 then [""] else []) + ObjectLines(dic, rank, bound, prefixLut, keys[i], ind, wrap)
  {
    PrefixBelow(dic, rank, keys, bound, i);
    PrefixBelow(dic, rank, keys, bound, i + 1);
    assert keys[i] in keys;
    assert keys[..i + 1][..i] == keys[..i];
  }

  method WriteNamespace(out: Stdout, dic: Dic, ghost rank: map<string, nat>, ghost bound: nat,
                        prefixLut: map<string, string>, obj: Decl, ind: nat, wrap: string -> seq<string>)
    requires obj.Namespace? && Ranked(dic, rank) && Below(dic, rank, obj.values, bound)
    modifies out
    ensures out.lines == old(out.lines) + NamespaceLines(dic, rank, bound, prefixLut, obj.values, ind, wrap)
    decreases bound, 1
  {
    var values := obj.values;
    var first := true;
    for i := 0 to |values|
      invariant first == (i == 0)
      invariant Below(dic, rank, values[..i], bound)
      invariant out.lines == old(out.lines) + NamespaceLines(dic, rank, bound, prefixLut, values[..i], ind, wrap)
    {
      NamespaceLinesSnoc(dic, rank, bound, prefixLut, values, i, ind, wrap);
      if !first {
        out.Print("");
      }
      ghost var blank := if i > 0 then [""] else [];
      ghost var o1 := out.lines;
      assert o1 == old(out.lines) + NamespaceLines(dic, rank, bound, prefixLut, values[..i], ind, wrap) + blank;
      first := false;
      WriteObject(out, dic, rank, bound, prefixLut, values[i], ind, wrap);
      PrintedAfter(old(out.lines), NamespaceLines(dic, rank, bound, prefixLut, values[..i], ind, wrap), blank,
                   ObjectLines(dic, rank, bound, prefixLut, values[i], ind, wrap), o1, out.lines);
    }
    assert values[..|values|] == values;
  }

  /** WriteObject: dispatches on the declaration's type. */
  method WriteObject(out: Stdout, dic: Dic, ghost rank: map<string, nat>, ghost bound: nat,
                     prefixLut: map<string, string>, key: string, ind: nat, wrap: string -> seq<string>)
    requires Ranked(dic, rank) && key in dic && key in rank && rank[key] < bound
    modifies out
    ensures out.lines == old(out.lines) + ObjectLines(dic, rank, bound, prefixLut, key, ind, wrap)
    decreases bound, 0
  {
    var obj := dic[key];
    match obj {
      case Namespace(_, _) =>
        NamespaceBelow(dic, rank, key);
        WriteNamespace(out, dic, rank, rank[key], prefixLut, obj, ind, wrap);
      case Struct(_, _, _, _, _) =>
        WriteStruct(out, dic, prefixLut, obj, ind, wrap);
      case Enum(_, _, _, _) =>
        WriteEnum(out, prefixLut, key, obj, ind, wrap);
      case Function(_, _, _, _) =>
        WriteFunction(out, dic, prefixLut, key, obj, ind, wrap);
      case Typedef(_, _) =>
        WriteTypedef(out, dic, prefixLut, obj, ind);
    }
  }
}
