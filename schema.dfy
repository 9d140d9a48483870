/** The schema both header generators read (omm.json, already parsed), the
  * namespace-path table they build from it (BuildTypeToPrefix), and the two
  * naming rules that consume the table: the C generator's flattening prefix
  * (GetNameWithPrefix) and the C++ generator's minimal qualification
  * (intersection, GetNameWithMinimalNamespace).
  *
  * A string field that the schema leaves out is the empty string here: the
  * generators test every optional field with `obj.get(...)`, for which an
  * absent key and an empty string are alike. */
module Schema {
  import opened TextFormat

  /** One entry of an enum's "values" list. */
  datatype EnumValue = EnumValue(name: string, value: string, comment: string)

  /** A struct member's "value": absent, a literal string (which may be the
    * sentinel "default"), or an enum-value object {"type": t, "value": v}. */
  datatype DefaultValue = NoValue | Literal(text: string) | EnumRef(typ: string, value: string)

  datatype Member = Member(name: string, typ: string, isConst: bool, isPtr: bool,
                           isStatic: bool, isConstexpr: bool, comment: string, value: DefaultValue)

  datatype Ret = Ret(typ: string, isConst: bool, isRef: bool)

  datatype Arg = Arg(name: string, typ: string, isConst: bool, isRef: bool, isPtr: bool, isPtr2x: bool)

  /** A declaration, tagged by its "type" field. */
  datatype Decl =
    | Namespace(name: string, values: seq<string>)
    | Enum(name: string, enumValues: seq<EnumValue>, isFlag: bool, injectNewLine: bool)
    | Struct(name: string, comment: string, members: seq<Member>, unionMembers: seq<Member>, cppOnly: bool)
    | Function(name: string, comment: string, ret: Ret, args: seq<Arg>)
    | Typedef(name: string, underlyingType: string)

  /** The schema dictionary: declaration key to declaration. */
  type Dic = map<string, Decl>

  /** `val.get("value")` is truthy: a non-empty literal or an enum-value object. */
  predicate HasValue(m: Member)
  {
    (m.value.Literal? && m.value.text != "") || m.value.EnumRef?
  }

  /** The name a type key stands for: the declaration's own name when the key
    * is declared, the key itself (a primitive such as uint32_t) otherwise. */
  function TypeName(dic: Dic, typeKey: string): (n: string)
    ensures typeKey !in dic ==> n == typeKey
  {
    if typeKey in dic then dic[typeKey].name else typeKey
  }

  /** The member names, in order. */
  function MemberNames(members: seq<Member>): (names: seq<string>)
    ensures |names| == |members|
  {
    if |members| == 0 then [] else MemberNames(members[..|members| - 1]) + [members[|members| - 1].name]
  }

  lemma {:induction false} MemberNamesAt(members: seq<Member>, i: nat)
    requires i < |members|
    ensures MemberNames(members)[i] == members[i].name
  {
    if i < |members| - 1 {
      MemberNamesAt(members[..|members| - 1], i);
    }
  }

  lemma MemberNamesSnoc(members: seq<Member>, i: nat)
    requires i < |members|
    ensures MemberNames(members[..i + 1]) == MemberNames(members[..i]) + [members[i].name]
  {
    assert members[..i + 1][..i] == members[..i];
  }

  /** Every declaration has a rank and every namespace lists only declared
    * keys of lower rank: the schema's namespaces nest without a cycle, so the
    * walks below end (the scripts would recurse forever on a cycle). */
  ghost predicate Ranked(dic: Dic, rank: map<string, nat>)
  {
    forall k | k in dic ::
      k in rank &&
      (dic[k].Namespace? ==> forall c | c in dic[k].values :: c in dic && c in rank && rank[c] < rank[k])
  }

  /** Every key of a layout list is declared, with a rank below `bound`
    * (`dic[key]` raises KeyError in the scripts otherwise). */
  ghost predicate Below(dic: Dic, rank: map<string, nat>, keys: seq<string>, bound: nat)
  {
    forall k | k in keys :: k in dic && k in rank && rank[k] < bound
  }

  lemma ChildrenBelow(dic: Dic, rank: map<string, nat>, keys: seq<string>, bound: nat, i: nat)
    requires Ranked(dic, rank) && Below(dic, rank, keys, bound) && i < |keys| && dic[keys[i]].Namespace?
    ensures Below(dic, rank, dic[keys[i]].values, rank[keys[i]])
  {
    assert keys[i] in keys;
  }

  lemma NamespaceBelow(dic: Dic, rank: map<string, nat>, key: string)
    requires Ranked(dic, rank) && key in dic && dic[key].Namespace?
    ensures key in rank && Below(dic, rank, dic[key].values, rank[key])
  {
  }

  lemma PrefixBelow(dic: Dic, rank: map<string, nat>, keys: seq<string>, bound: nat, n: nat)
    requires Below(dic, rank, keys, bound) && n <= |keys|
    ensures Below(dic, rank, keys[..n], bound)
  {
    forall k | k in keys[..n] ensures k in dic && k in rank && rank[k] < bound {
      var j :| 0 <= j < n && keys[..n][j] == k;
      assert keys[j] in keys;
    }
  }

  // ---------------------------------------------------------------------
  // BuildTypeToPrefix: the namespace path of every declaration.
  // ---------------------------------------------------------------------

  /** The table the C++ generator's BuildTypeToPrefix leaves after walking
    * `keys` at namespace path `prefix`, starting from `lut`: a namespace
    * walks its children with its name appended to a copy of the path; any
    * other declaration is recorded with the path it was met at, a later
    * record of the same key replacing an earlier one. */
  ghost function PathTable(dic: Dic, rank: map<string, nat>, bound: nat, prefix: seq<string>,
                           keys: seq<string>, lut: map<string, seq<string>>): map<string, seq<string>>
    requires Ranked(dic, rank) && Below(dic, rank, keys, bound)
    decreases bound, |keys|
  {
    if |keys| == 0 then lut
    else
      PrefixBelow(dic, rank, keys, bound, |keys| - 1);
      var before := PathTable(dic, rank, bound, prefix, keys[..|keys| - 1], lut);
      var k := keys[|keys| - 1];
      assert k in keys;
      match dic[k]
      case Namespace(name, values) =>
        ChildrenBelow(dic, rank, keys, bound, |keys| - 1);
        PathTable(dic, rank, rank[k], prefix + [name], values, before)
      case _ => before[k := prefix]
  }

  /** The table the C generator's BuildTypeToPrefix leaves: the same walk
    * with the path kept as one string, namespace names concatenated. */
  ghost function PrefixTable(dic: Dic, rank: map<string, nat>, bound: nat, prefix: string,
                             keys: seq<string>, lut: map<string, string>): map<string, string>
    requires Ranked(dic, rank) && Below(dic, rank, keys, bound)
    decreases bound, |keys|
  {
    if |keys| == 0 then lut
    else
      PrefixBelow(dic, rank, keys, bound, |keys| - 1);
      var before := PrefixTable(dic, rank, bound, prefix, keys[..|keys| - 1], lut);
      var k := keys[|keys| - 1];
      assert k in keys;
      match dic[k]
      case Namespace(name, values) =>
        ChildrenBelow(dic, rank, keys, bound, |keys| - 1);
        PrefixTable(dic, rank, rank[k], prefix + name, values, before)
      case _ => before[k := prefix]
  }

  /** Namespace names concatenated with no separator. */
  function Concat(path: seq<string>): string
  {
    Join(path, "")
  }

  /** Every path of a table concatenated. */
  function Flatten(lut: map<string, seq<string>>): (flat: map<string, string>)
    ensures flat.Keys == lut.Keys
    ensures forall k | k in lut :: flat[k] == Concat(lut[k])
  {
    map k | k in lut :: Concat(lut[k])
  }

  lemma FlattenUpdate(lut: map<string, seq<string>>, k: string, p: seq<string>)
    ensures Flatten(lut[k := p]) == Flatten(lut)[k := Concat(p)]
  {
  }

  /** The two generators record the same namespaces: the C table is the C++
    * table with every path concatenated, so a declaration nested in
    * namespaces N1..Nk gets the C prefix N1+...+Nk. */
  lemma {:induction false} PrefixTableIsFlatPathTable(dic: Dic, rank: map<string, nat>, bound: nat,
                                                      prefix: seq<string>, keys: seq<string>,
                                                      lut: map<string, seq<string>>)
    requires Ranked(dic, rank) && Below(dic, rank, keys, bound)
    ensures PrefixTable(dic, rank, bound, Concat(prefix), keys, Flatten(lut))
         == Flatten(PathTable(dic, rank, bound, prefix, keys, lut))
    decreases bound, |keys|
  {
    if |keys| > 0 {
      PrefixBelow(dic, rank, keys, bound, |keys| - 1);
      PrefixTableIsFlatPathTable(dic, rank, bound, prefix, keys[..|keys| - 1], lut);
      var before := PathTable(dic, rank, bound, prefix, keys[..|keys| - 1], lut);
      var k := keys[|keys| - 1];
      assert k in keys;
      match dic[k]
      case Namespace(name, values) =>
        ChildrenBelow(dic, rank, keys, bound, |keys| - 1);
        PrefixTableIsFlatPathTable(dic, rank, rank[k], prefix + [name], values, before);
        ConcatSnoc(prefix, name);
      case _ =>
        FlattenUpdate(before, k, prefix);
    }
  }

  /** What the walk adds: only declarations that are not namespaces, each
    * with a path that extends the path the walk started at; every other
    * entry is the one it started with. */
  lemma {:induction false} PathTableEntries(dic: Dic, rank: map<string, nat>, bound: nat, prefix: seq<string>,
                                            keys: seq<string>, lut: map<string, seq<string>>)
    requires Ranked(dic, rank) && Below(dic, rank, keys, bound)
    ensures var r := PathTable(dic, rank, bound, prefix, keys, lut);
      forall k | k in r ::
        (k in lut && r[k] == lut[k]) ||
        (k in dic && !dic[k].Namespace? && |prefix| <= |r[k]| && r[k][..|prefix|] == prefix)
    decreases bound, |keys|
  {
    if |keys| > 0 {
      PrefixBelow(dic, rank, keys, bound, |keys| - 1);
      PathTableEntries(dic, rank, bound, prefix, keys[..|keys| - 1], lut);
      var before := PathTable(dic, rank, bound, prefix, keys[..|keys| - 1], lut);
      var k := keys[|keys| - 1];
      assert k in keys;
      match dic[k]
      case Namespace(name, values) =>
        ChildrenBelow(dic, rank, keys, bound, |keys| - 1);
        PathTableEntries(dic, rank, rank[k], prefix + [name], values, before);
        var r := PathTable(dic, rank, rank[k], prefix + [name], values, before);
        forall j | j in r && !(j in lut && r[j] == lut[j])
          ensures j in dic && !dic[j].Namespace? && |prefix| <= |r[j]| && r[j][..|prefix|] == prefix
        {
          if j in before && r[j] == before[j] {
          } else {
            assert r[j][..|prefix|] == r[j][..|prefix + [name]|][..|prefix|];
          }
        }
      case _ =>
    }
  }

  /** A key occurs in a layout list: listed itself, or listed under one of
    * its namespaces. */
  ghost predicate Occurs(dic: Dic, rank: map<string, nat>, bound: nat, key: string, keys: seq<string>)
    requires Ranked(dic, rank) && Below(dic, rank, keys, bound)
    decreases bound, |keys|
  {
    if |keys| == 0 then false
    else
      PrefixBelow(dic, rank, keys, bound, |keys| - 1);
      var k := keys[|keys| - 1];
      assert k in keys;
      Occurs(dic, rank, bound, key, keys[..|keys| - 1]) || k == key ||
      (dic[k].Namespace? &&
        (ChildrenBelow(dic, rank, keys, bound, |keys| - 1);
         Occurs(dic, rank, rank[k], key, dic[k].values)))
  }

  /** A walk over keys among which `key` does not occur leaves its entry as it was. */
  lemma {:induction false} PathTableUntouched(dic: Dic, rank: map<string, nat>, bound: nat, prefix: seq<string>,
                                              keys: seq<string>, lut: map<string, seq<string>>, key: string)
    requires Ranked(dic, rank) && Below(dic, rank, keys, bound)
    requires !Occurs(dic, rank, bound, key, keys)
    ensures var r := PathTable(dic, rank, bound, prefix, keys, lut);
      (key in r <==> key in lut) && (key in lut ==> r[key] == lut[key])
    decreases bound, |keys|
  {
    if |keys| > 0 {
      PrefixBelow(dic, rank, keys, bound, |keys| - 1);
      PathTableUntouched(dic, rank, bound, prefix, keys[..|keys| - 1], lut, key);
      var before := PathTable(dic, rank, bound, prefix, keys[..|keys| - 1], lut);
      var k := keys[|keys| - 1];
      assert k in keys;
      if dic[k].Namespace? {
        ChildrenBelow(dic, rank, keys, bound, |keys| - 1);
        PathTableUntouched(dic, rank, rank[k], prefix + [dic[k].name], dic[k].values, before, key);
      }
    }
  }

  /** Walking a layout split in two is walking the first part, then the
    * second from the table the first left. */
  lemma {:induction false} PathTableAppend(dic: Dic, rank: map<string, nat>, bound: nat, prefix: seq<string>,
                                           a: seq<string>, b: seq<string>, lut: map<string, seq<string>>)
    requires Ranked(dic, rank) && Below(dic, rank, a + b, bound)
    ensures Below(dic, rank, a, bound) && Below(dic, rank, b, bound)
    ensures PathTable(dic, rank, bound, prefix, a + b, lut)
         == PathTable(dic, rank, bound, prefix, b, PathTable(dic, rank, bound, prefix, a, lut))
    decreases |b|
  {
    assert forall k | k in a :: k in a + b;
    assert forall k | k in b :: k in a + b;
    if |b| > 0 {
      var ab := a + b;
      assert ab[..|ab| - 1] == a + b[..|b| - 1];
      assert ab[|ab| - 1] == b[|b| - 1];
      PathTableAppend(dic, rank, bound, prefix, a, b[..|b| - 1], lut);
    } else {
      assert a + b == a;
    }
  }

  /** A declaration listed once, and nowhere after that, is recorded with
    * the path of the list it is listed in, whatever its siblings before it
    * are: sibling namespaces extend only their own copy of the path. */
  lemma LeafPath(dic: Dic, rank: map<string, nat>, bound: nat, prefix: seq<string>,
                 before: seq<string>, key: string, after: seq<string>, lut: map<string, seq<string>>)
    requires Ranked(dic, rank) && Below(dic, rank, before + [key] + after, bound)
    requires !dic[key].Namespace? && !Occurs(dic, rank, bound, key, after)
    ensures var r := PathTable(dic, rank, bound, prefix, before + [key] + after, lut);
      key in r && r[key] == prefix
  {
    PathTableAppend(dic, rank, bound, prefix, before + [key], after, lut);
    var bk := before + [key];
    assert bk[..|bk| - 1] == before;
    PathTableUntouched(dic, rank, bound, prefix, after, PathTable(dic, rank, bound, prefix, bk, lut), key);
  }

  // ---------------------------------------------------------------------
  // The flattening rule (C).
  // ---------------------------------------------------------------------

  /** GetNameWithPrefix: the name behind its key's prefix, or unchanged when
    * the key has no (or an empty) entry; the empty-prefix branch of the
    * script gives the same text. */
  function GetNameWithPrefix(prefixLut: map<string, string>, key: string, name: string): (r: string)
    ensures r == (if key in prefixLut then prefixLut[key] else "") + name
  {
    if key in prefixLut && prefixLut[key] != "" then prefixLut[key] + name else name
  }

  /** Flattening: a declaration recorded at path [N1, ..., Nk] is named
    * N1 + ... + Nk + name in the C header; a key without a record (a
    * primitive type) is passed through. */
  lemma FlattenedName(paths: map<string, seq<string>>, key: string, name: string)
    ensures key in paths ==> GetNameWithPrefix(Flatten(paths), key, name) == Concat(paths[key]) + name
    ensures key !in paths ==> GetNameWithPrefix(Flatten(paths), key, name) == name
  {
  }

  // ---------------------------------------------------------------------
  // The minimal-qualification rule (C++).
  // ---------------------------------------------------------------------

  /** `intersection(lst1, lst2)`: despite its name, the elements of lst1 not
    * in lst2, in lst1's order. */
  function Intersection(lst1: seq<string>, lst2: seq<string>): (lst3: seq<string>)
    ensures forall x :: x in lst3 <==> x in lst1 && x !in lst2
    ensures |lst3| <= |lst1|
  {
    if |lst1| == 0 then []
    else (if lst1[0] in lst2 then [] else [lst1[0]]) + Intersection(lst1[1..], lst2)
  }

  /** The difference keeps lst1's order: it is lst1 when nothing is removed,
    * and a later element is added at the end. */
  lemma {:induction false} IntersectionSnoc(lst1: seq<string>, x: string, lst2: seq<string>)
    ensures Intersection(lst1 + [x], lst2) == Intersection(lst1, lst2) + (if x in lst2 then [] else [x])
    decreases |lst1|
  {
    if |lst1| > 0 {
      assert (lst1 + [x])[1..] == lst1[1..] + [x];
      IntersectionSnoc(lst1[1..], x, lst2);
    } else {
      assert [x][1..] == [];
    }
  }

  /** Nothing of lst1 in lst2: the difference is all of lst1. */
  lemma {:induction false} IntersectionDisjoint(lst1: seq<string>, lst2: seq<string>)
    requires forall x | x in lst1 :: x !in lst2
    ensures Intersection(lst1, lst2) == lst1
    decreases |lst1|
  {
    if |lst1| > 0 {
      assert forall x | x in lst1[1..] :: x in lst1;
      IntersectionDisjoint(lst1[1..], lst2);
      assert [lst1[0]] + lst1[1..] == lst1;
    }
  }

  /** The qualifier GetNameWithMinimalNamespace puts in front of a name, or
    * none: both keys have a non-empty path and some namespace of the
    * target's path is missing from the referrer's. */
  function Qualifier(prefixLut: map<string, seq<string>>, ref: string, nameKey: string): (ns: seq<string>)
    ensures ns != [] <==>
      (nameKey in prefixLut && ref in prefixLut && prefixLut[ref] != [] &&
       exists x :: x in prefixLut[nameKey] && x !in prefixLut[ref])
  {
    if nameKey in prefixLut && prefixLut[nameKey] != [] && ref in prefixLut && prefixLut[ref] != []
    then
      var ns := Intersection(prefixLut[nameKey], prefixLut[ref]);
      assert ns != [] ==> ns[0] in ns;
      ns
    else []
  }

  /** GetNameWithMinimalNamespace as a value: the missing namespaces joined
    * with "::", then "::" and the name; the bare name when none is missing. */
  function MinimalName(prefixLut: map<string, seq<string>>, ref: string, nameKey: string, name: string): string
  {
    var ns := Qualifier(prefixLut, ref, nameKey);
    if ns != [] then Join(ns, "::") + "::" + name else name
  }

  /** The name is left bare exactly when the target or the referrer has no
    * path, or every namespace of the target's path also appears (anywhere)
    * in the referrer's path; otherwise it ends in "::" and the name. */
  lemma BareNameIff(prefixLut: map<string, seq<string>>, ref: string, nameKey: string, name: string)
    ensures MinimalName(prefixLut, ref, nameKey, name) == name <==>
      (nameKey !in prefixLut || ref !in prefixLut || prefixLut[ref] == [] ||
       forall x :: x in prefixLut[nameKey] ==> x in prefixLut[ref])
    ensures MinimalName(prefixLut, ref, nameKey, name) != name ==>
      var r := MinimalName(prefixLut, ref, nameKey, name);
      |r| >= |name| + 2 && r[|r| - |name| - 2..] == "::" + name
  {
    var r := MinimalName(prefixLut, ref, nameKey, name);
    var ns := Qualifier(prefixLut, ref, nameKey);
    if ns != [] {
      var j := Join(ns, "::");
      assert r == j + ("::" + name);
      assert r[|r| - |name| - 2..] == "::" + name;
    }
  }

  /** A reference none of whose namespaces appear in the referrer's path is
    * qualified with the target's whole path. */
  lemma QualifierDisjoint(prefixLut: map<string, seq<string>>, ref: string, nameKey: string)
    requires nameKey in prefixLut && ref in prefixLut && prefixLut[ref] != []
    requires forall x | x in prefixLut[nameKey] :: x !in prefixLut[ref]
    ensures Qualifier(prefixLut, ref, nameKey) == prefixLut[nameKey]
  {
    if prefixLut[nameKey] != [] {
      IntersectionDisjoint(prefixLut[nameKey], prefixLut[ref]);
    }
  }

  /** The namespaces of omm::Cpu missing from omm::Debug: only Cpu. */
  lemma CpuMissingFromDebug()
    ensures Intersection(["omm", "Cpu"], ["omm", "Debug"]) == ["Cpu"]
  {
    var debug := ["omm", "Debug"];
    assert "omm" == debug[0];
    assert "Cpu"[0] != "omm"[0] && "Cpu"[0] != "Debug"[0];
    assert "Cpu" !in debug;
    assert ["omm", "Cpu"][1..] == ["Cpu"];
    assert ["Cpu"][1..] == [];
    assert Intersection(["Cpu"], debug) == ["Cpu"] + Intersection([], debug);
  }

  /** The qualification of omm.hpp's Debug::SaveAsImages argument: a
    * declaration of omm::Cpu seen from omm::Debug is written Cpu::Name. */
  lemma CpuNameInDebug()
    ensures MinimalName(map["BakeInputDesc" := ["omm", "Cpu"], "SaveAsImages" := ["omm", "Debug"]],
                        "SaveAsImages", "BakeInputDesc", "BakeInputDesc") == "Cpu::BakeInputDesc"
  {
    var lut := map["BakeInputDesc" := ["omm", "Cpu"], "SaveAsImages" := ["omm", "Debug"]];
    assert "BakeInputDesc"[0] != "SaveAsImages"[0];
    assert lut["BakeInputDesc"] == ["omm", "Cpu"];
    assert lut["SaveAsImages"] == ["omm", "Debug"];
    CpuMissingFromDebug();
    assert Qualifier(lut, "SaveAsImages", "BakeInputDesc") == ["Cpu"];
    assert Join(["Cpu"], "::") == "Cpu";
  }
}
