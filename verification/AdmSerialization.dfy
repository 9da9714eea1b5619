/**
 * admSerialization.py: one pass over the lines of a configuration description that writes three files,
 * a C struct, a description table and a JSON writer. All three must describe the same tree; here each
 * is read by a reader of its own.
 */
module AdmSerialization {
  import opened Guards

  datatype Option<+T> = None | Some(value: T)

  /** A line as the script classifies it; Invalid also stands for a line that split(':') cannot take apart. */
  datatype Line = Blank | Open(name: string) | Close | Field(varType: string, varName: string) | Invalid

  datatype HeaderItem = StructHead | StructOpen | StructClose(name: string) | Member(ctype: string, name: string) | StructFoot(name: string)

  datatype DescItem = TableHead(name: string) | Entry(name: string, ctype: string, atype: string) | TableFoot

  datatype JsonItem = WriterHead(name: string) | AddNode(name: string) | EndNode | Add(jtype: string, name: string, key: string) | WriterFoot(name: string)

  type Path = seq<string>

  /** A variable in the tree: where it is, and a type, in the words of the file it was read from. */
  datatype Leaf = Leaf(path: Path, kind: string)

  const C_TYPES: map<string, string> := map[
    "uint32_t" := "uint32_t", "int32_t" := "int32_t", "bool" := "bool", "string" := "std::string",
    "float" := "float", "double" := "double", "video_encode" := "COMPRES_PARAMS", "lavcodec_context" := "FFcodecContext"]

  const A_TYPES: map<string, string> := map[
    "uint32_t" := "ADM_param_uint32_t", "int32_t" := "ADM_param_int32_t", "float" := "ADM_param_float",
    "double" := "ADM_param_double", "bool" := "ADM_param_bool", "string" := "ADM_param_stdstring",
    "video_encode" := "ADM_param_video_encode", "lavcodec_context" := "ADM_param_lavcodec_context"]

  const J_TYPES: map<string, string> := map[
    "uint32_t" := "json.addUint32(", "int32_t" := "json.addInt32(", "bool" := "json.addBool(",
    "string" := "json.addString(", "float" := "json.addFloat(", "double" := "json.addDouble(",
    "video_encode" := "json.addCompressParam(", "lavcodec_context" := "json.lavcodec("]

  /** The types' names in C, in the parameter table and in the calls of the JSON writer. */
  datatype Tables = Tables(c: map<string, string>, a: map<string, string>, j: map<string, string>)

  const TABLES: Tables := Tables(C_TYPES, A_TYPES, J_TYPES)

  predicate KnownType(tables: Tables, t: string) {
    t in tables.c && t in tables.a && t in tables.j
  }

  /** The script's three tables know the same types. */
  lemma TablesMatch(t: string)
    ensures KnownType(TABLES, t) <==> t in C_TYPES
    ensures KnownType(TABLES, t) <==> t in A_TYPES
    ensures KnownType(TABLES, t) <==> t in J_TYPES
  {
  }

  /** A type, its C type, its kind in the parameter table, and the call that writes it. */
  predicate IsRow(t: string, c: string, a: string, j: string) {
    || (t == "uint32_t" && c == "uint32_t" && a == "ADM_param_uint32_t" && j == "json.addUint32(")
    || (t == "int32_t" && c == "int32_t" && a == "ADM_param_int32_t" && j == "json.addInt32(")
    || (t == "bool" && c == "bool" && a == "ADM_param_bool" && j == "json.addBool(")
    || (t == "string" && c == "std::string" && a == "ADM_param_stdstring" && j == "json.addString(")
    || (t == "float" && c == "float" && a == "ADM_param_float" && j == "json.addFloat(")
    || (t == "double" && c == "double" && a == "ADM_param_double" && j == "json.addDouble(")
    || (t == "video_encode" && c == "COMPRES_PARAMS" && a == "ADM_param_video_encode" && j == "json.addCompressParam(")
    || (t == "lavcodec_context" && c == "FFcodecContext" && a == "ADM_param_lavcodec_context" && j == "json.lavcodec(")
  }

  /** For every type the three tables speak of the same C type. */
  lemma RowsMatch(t: string)
    requires KnownType(TABLES, t)
    ensures IsRow(t, C_TYPES[t], A_TYPES[t], J_TYPES[t])
  {
  }

  function Translated(table: map<string, string>, t: string): string {
    if t in table then table[t] else ""
  }

  /** The same tree with the types as one of the tables words them. */
  function With(table: map<string, string>, fields: seq<Leaf>): (r: seq<Leaf>)
    ensures |r| == |fields|
  {
    seq(|fields|, i requires 0 <= i < |fields| => Leaf(fields[i].path, Translated(table, fields[i].kind)))
  }

  lemma WithMore(table: map<string, string>, fields: seq<Leaf>, f: Leaf)
    ensures With(table, fields + [f]) == With(table, fields) + [Leaf(f.path, Translated(table, f.kind))]
  {
  }

  // ---------------------------------------------------------------------------------------------
  // Names
  // ---------------------------------------------------------------------------------------------

  /** ".".join(path) */
  function Join(path: Path): string {
    if path == [] then ""
    else if |path| == 1 then path[0]
    else Join(path[..|path| - 1]) + "." + path[|path| - 1]
  }

  /** The name processLine gives a variable inside the structs of `nested`. */
  function FullName(fullPath: string, varName: string): string {
    if |fullPath| == 0 then varName else fullPath + "." + varName
  }

  lemma JoinIsEmpty(path: Path)
    ensures Join(path) == "" <==> path == [] || path == [""]
  {
    if |path| > 1 {
      assert |Join(path)| >= 1;
    }
  }

  /** The dotted name is the joined path, except directly inside a single struct without a name. */
  lemma FullNameIsPath(nested: Path, varName: string)
    ensures FullName(Join(nested), varName) == Join(nested + [varName]) <==> nested != [""]
  {
    var path := nested + [varName];
    JoinIsEmpty(nested);
    if nested != [] {
      assert path[..|path| - 1] == nested;
      assert Join(path) == Join(nested) + "." + varName;
    }
    if nested == [""] {
      assert |Join(path)| == |varName| + 1;
    }
  }

  /** C puts the members of a struct without a name into the struct around it. */
  function CStructs(nested: Path): (r: Path)
    ensures |r| <= |nested|
  {
    if nested == [] then [] else (if nested[0] == "" then [] else [nested[0]]) + CStructs(nested[1..])
  }

  /** What C makes of a member declaration inside `nested`: nothing when the member has no name. */
  function CMember(nested: Path, name: string, ctype: string): seq<Leaf> {
    if name == "" then [] else [Leaf(CStructs(nested) + [name], ctype)]
  }

  /** The members that C sees where `fields` are declared. */
  function InC(table: map<string, string>, fields: seq<Leaf>): seq<Leaf> {
    if fields == [] then []
    else
      var last := fields[|fields| - 1];
      InC(table, fields[..|fields| - 1])
      + if last.path == [] then []
        else CMember(last.path[..|last.path| - 1], last.path[|last.path| - 1], Translated(table, last.kind))
  }

  lemma InCMore(table: map<string, string>, fields: seq<Leaf>, nested: Path, name: string, kind: string)
    ensures InC(table, fields + [Leaf(nested + [name], kind)]) == InC(table, fields) + CMember(nested, name, Translated(table, kind))
  {
    var all := fields + [Leaf(nested + [name], kind)];
    assert all[..|all| - 1] == fields;
    assert (nested + [name])[..|nested|] == nested;
  }

  predicate NoNameless(nested: Path) {
    forall i :: 0 <= i < |nested| ==> nested[i] != ""
  }

  lemma {:induction false} CStructsKept(nested: Path)
    ensures CStructs(nested) == nested <==> NoNameless(nested)
    ensures NoNameless(nested) || |CStructs(nested)| < |nested|
    decreases |nested|
  {
    if nested != [] {
      var tail := nested[1..];
      CStructsKept(tail);
      assert nested == [nested[0]] + tail;
      if nested[0] != "" && NoNameless(tail) {
        forall i | 0 <= i < |nested| ensures nested[i] != "" {
          assert i > 0 ==> nested[i] == tail[i - 1];
        }
      } else if nested[0] != "" {
        var i :| 0 <= i < |tail| && tail[i] == "";
        assert nested[i + 1] == "";
      }
    }
  }

  lemma NamedMember(path: Path, ctype: string)
    requires path != [] && NoNameless(path)
    ensures CMember(path[..|path| - 1], path[|path| - 1], ctype) == [Leaf(path, ctype)]
  {
    var structs := path[..|path| - 1];
    CStructsKept(structs);
    assert structs + [path[|path| - 1]] == path;
  }

  /** Without empty names C sees every variable where it is declared. */
  lemma {:induction false} InCIsWith(table: map<string, string>, fields: seq<Leaf>)
    requires forall i :: 0 <= i < |fields| ==> fields[i].path != [] && NoNameless(fields[i].path)
    ensures InC(table, fields) == With(table, fields)
    decreases |fields|
  {
    if fields != [] {
      var front, last := fields[..|fields| - 1], fields[|fields| - 1];
      InCIsWith(table, front);
      NamedMember(last.path, Translated(table, last.kind));
      WithMore(table, front, last);
      assert front + [last] == fields;
    }
  }

  function TotalLength(path: Path): nat {
    if path == [] then 0 else |path[0]| + TotalLength(path[1..])
  }

  lemma {:induction false} CStructsLength(nested: Path)
    ensures TotalLength(CStructs(nested)) == TotalLength(nested)
  {
    if nested != [] {
      CStructsLength(nested[1..]);
      if nested[0] != "" {
        assert ([nested[0]] + CStructs(nested[1..]))[1..] == CStructs(nested[1..]);
      } else {
        assert [] + CStructs(nested[1..]) == CStructs(nested[1..]);
      }
    }
  }

  lemma {:induction false} TotalLengthMore(path: Path, name: string)
    ensures TotalLength(path + [name]) == TotalLength(path) + |name|
  {
    if path != [] {
      assert (path + [name])[1..] == path[1..] + [name];
      TotalLengthMore(path[1..], name);
    }
  }

  lemma {:induction false} JoinLength(path: Path)
    requires path != []
    ensures |Join(path)| == TotalLength(path) + |path| - 1
    decreases |path|
  {
    var k := |path| - 1;
    assert path == path[..k] + [path[k]];
    TotalLengthMore(path[..k], path[k]);
    if k > 0 {
      JoinLength(path[..k]);
    }
  }

  /** The expression the table and the JSON writer use for a variable is the member that C knows. */
  predicate NamesMember(nested: Path, varName: string) {
    FullName(Join(nested), varName) == Join(CStructs(nested) + [varName])
  }

  /** That is so iff no struct around the variable is nameless, or there is only one and it is. */
  lemma NamesMemberIff(nested: Path, varName: string)
    ensures NamesMember(nested, varName) <==> NoNameless(nested) || nested == [""]
  {
    CStructsKept(nested);
    if nested == [""] {
      assert CStructs(nested) == [] && [] + [varName] == [varName];
    } else {
      FullNameIsPath(nested, varName);
      if !NoNameless(nested) {
        LongerThanMember(nested, varName);
      }
    }
  }

  lemma LongerThanMember(nested: Path, varName: string)
    requires |CStructs(nested)| < |nested|
    ensures |Join(nested + [varName])| > |Join(CStructs(nested) + [varName])|
  {
    JoinLength(nested + [varName]);
    JoinLength(CStructs(nested) + [varName]);
    TotalLengthMore(nested, varName);
    TotalLengthMore(CStructs(nested), varName);
    CStructsLength(nested);
  }

  // ---------------------------------------------------------------------------------------------
  // Reading the description table and the JSON writer
  // ---------------------------------------------------------------------------------------------

  function Entries(desc: seq<DescItem>): seq<DescItem> {
    if desc == [] then []
    else Entries(desc[..|desc| - 1]) + if desc[|desc| - 1].Entry? then [desc[|desc| - 1]] else []
  }

  /** The nodes that are open, the variables added so far, and the C expressions whose values are added. */
  datatype Replay = Replay(open: Path, added: seq<Leaf>, keys: seq<string>)

  function ReplayOne(r: Replay, item: JsonItem): Option<Replay> {
    match item
    case AddNode(name) => Some(r.(open := r.open + [name]))
    case EndNode => if r.open == [] then None else Some(r.(open := r.open[..|r.open| - 1]))
    case Add(jtype, name, key) => Some(r.(added := r.added + [Leaf(r.open + [name], jtype)], keys := r.keys + [key]))
    case _ => Some(r)
  }

  /** Runs the calls of the generated writer; None when endNode has nothing to end. */
  function ReadJson(json: seq<JsonItem>): Option<Replay> {
    if json == [] then Some(Replay([], [], []))
    else
      match ReadJson(json[..|json| - 1])
      case None => None
      case Some(r) => ReplayOne(r, json[|json| - 1])
  }

  // ---------------------------------------------------------------------------------------------
  // Reading the C struct
  // ---------------------------------------------------------------------------------------------

  /**
   * In C a nested struct gets its name behind its members: a list of members for every open brace. When the
   * name is missing, the members belong to the struct around it.
   */
  datatype Struct = Outside | Inside(levels: seq<seq<Leaf>>) | Whole(members: seq<Leaf>, name: string) | Malformed

  function Prefixed(name: string, members: seq<Leaf>): (r: seq<Leaf>)
    ensures |r| == |members|
  {
    if name == "" then members
    else seq(|members|, i requires 0 <= i < |members| => Leaf([name] + members[i].path, members[i].kind))
  }

  /** More members for the innermost open struct. */
  function AddLast(levels: seq<seq<Leaf>>, members: seq<Leaf>): (r: seq<seq<Leaf>>)
    requires levels != []
    ensures |r| == |levels|
  {
    levels[..|levels| - 1] + [levels[|levels| - 1] + members]
  }

  lemma AddLastTail(levels: seq<seq<Leaf>>, members: seq<Leaf>)
    requires |levels| >= 2
    ensures AddLast(levels, members)[0] == levels[0]
    ensures AddLast(levels, members)[1..] == AddLast(levels[1..], members)
  {
    var k := |levels| - 1;
    assert levels[1..][..k - 1] == levels[..k][1..];
  }

  function ReadItem(s: Struct, item: HeaderItem): Struct {
    match (s, item)
    case (Outside, StructHead) => Inside([[]])
    case (Inside(levels), StructOpen) => Inside(levels + [[]])
    case (Inside(levels), Member(ctype, name)) =>
      if levels == [] then Malformed else Inside(AddLast(levels, CMember([], name, ctype)))
    case (Inside(levels), StructClose(name)) =>
      if |levels| < 2 then Malformed
      else Inside(AddLast(levels[..|levels| - 1], Prefixed(name, levels[|levels| - 1])))
    case (Inside(levels), StructFoot(name)) => if |levels| == 1 then Whole(levels[0], name) else Malformed
    case _ => Malformed
  }

  function ReadHeader(header: seq<HeaderItem>): Struct {
    if header == [] then Outside else ReadItem(ReadHeader(header[..|header| - 1]), header[|header| - 1])
  }

  lemma ReadHeaderMore(header: seq<HeaderItem>, item: HeaderItem)
    ensures ReadHeader(header + [item]) == ReadItem(ReadHeader(header), item)
  {
    assert (header + [item])[..|header|] == header;
  }

  lemma EntriesMore(desc: seq<DescItem>, item: DescItem)
    ensures Entries(desc + [item]) == if item.Entry? then Entries(desc) + [item] else Entries(desc)
  {
    assert (desc + [item])[..|desc|] == desc;
  }

  lemma ReadJsonMore(json: seq<JsonItem>, item: JsonItem)
    ensures ReadJson(json + [item]) == match ReadJson(json) case None => None case Some(r) => ReplayOne(r, item)
  {
    assert (json + [item])[..|json|] == json;
  }

  /** The members of all open levels, as if the open structs were closed with these names. */
  function Combined(levels: seq<seq<Leaf>>, nested: Path): seq<Leaf>
    requires |levels| == |nested| + 1
    decreases |nested|
  {
    if nested == [] then levels[0] else levels[0] + Prefixed(nested[0], Combined(levels[1..], nested[1..]))
  }

  lemma PrefixedConcat(name: string, a: seq<Leaf>, b: seq<Leaf>)
    ensures Prefixed(name, a + b) == Prefixed(name, a) + Prefixed(name, b)
  {
  }

  lemma PrefixedMember(struct: string, nested: Path, name: string, ctype: string)
    ensures Prefixed(struct, CMember(nested, name, ctype)) == CMember([struct] + nested, name, ctype)
  {
    assert ([struct] + nested)[1..] == nested;
    if struct == "" {
      assert CStructs([struct] + nested) == CStructs(nested);
    } else if name != "" {
      assert [struct] + (CStructs(nested) + [name]) == CStructs([struct] + nested) + [name];
    }
  }

  /** A member goes to the innermost open struct. */
  lemma {:induction false} CombinedMember(levels: seq<seq<Leaf>>, nested: Path, name: string, ctype: string)
    requires |levels| == |nested| + 1
    ensures Combined(AddLast(levels, CMember([], name, ctype)), nested) == Combined(levels, nested) + CMember(nested, name, ctype)
    decreases |nested|
  {
    if nested != [] {
      var l, n := levels[1..], nested[1..];
      CombinedMember(l, n, name, ctype);
      AddLastTail(levels, CMember([], name, ctype));
      PrefixedConcat(nested[0], Combined(l, n), CMember(n, name, ctype));
      assert [nested[0]] + n == nested;
      PrefixedMember(nested[0], n, name, ctype);
      Associative(levels[0], Prefixed(nested[0], Combined(l, n)), CMember(nested, name, ctype));
    }
  }

  lemma Associative<T>(a: seq<T>, b: seq<T>, c: seq<T>)
    ensures (a + b) + c == a + (b + c)
  {
  }

  /** Opening a struct adds no member. */
  lemma {:induction false} CombinedOpen(levels: seq<seq<Leaf>>, nested: Path, name: string)
    requires |levels| == |nested| + 1
    ensures Combined(levels + [[]], nested + [name]) == Combined(levels, nested)
    decreases |nested|
  {
    if nested == [] {
      assert (levels + [[]])[1..] == [[]];
      assert ([] + [name])[1..] == [];
      assert Combined([[]], []) == [];
      assert Prefixed(name, []) == [];
    } else {
      CombinedOpen(levels[1..], nested[1..], name);
      assert (levels + [[]])[1..] == levels[1..] + [[]];
      assert (nested + [name])[1..] == nested[1..] + [name];
    }
  }

  /** Closing a struct under the name it was opened with changes no member path. */
  lemma {:induction false} CombinedClose(levels: seq<seq<Leaf>>, nested: Path)
    requires |levels| == |nested| + 1 && nested != []
    ensures var k := |nested| - 1;
            Combined(AddLast(levels[..k + 1], Prefixed(nested[k], levels[k + 1])), nested[..k]) == Combined(levels, nested)
    decreases |nested|
  {
    var k := |nested| - 1;
    if k == 0 {
      assert AddLast(levels[..1], Prefixed(nested[0], levels[1])) == [levels[0] + Prefixed(nested[0], levels[1])];
      assert nested[1..] == [] && Combined(levels[1..], []) == levels[1];
    } else {
      CombinedClose(levels[1..], nested[1..]);
      AddLastTail(levels[..k + 1], Prefixed(nested[k], levels[k + 1]));
      assert levels[..k + 1][1..] == levels[1..][..k];
      assert nested[..k][1..] == nested[1..][..k - 1];
    }
  }

  // ---------------------------------------------------------------------------------------------
  // The three files step by step
  // ---------------------------------------------------------------------------------------------

  /** The struct's name wherever table and writer carry it. */
  function TableNames(desc: seq<DescItem>): seq<string> {
    if desc == [] then []
    else TableNames(desc[..|desc| - 1]) + if desc[|desc| - 1].TableHead? then [desc[|desc| - 1].name] else []
  }

  function WriterNames(json: seq<JsonItem>): seq<string> {
    if json == [] then []
    else
      var last := json[|json| - 1];
      WriterNames(json[..|json| - 1]) + if last.WriterHead? || last.WriterFoot? then [last.name] else []
  }

  lemma TableNamesMore(desc: seq<DescItem>, item: DescItem)
    ensures TableNames(desc + [item]) == if item.TableHead? then TableNames(desc) + [item.name] else TableNames(desc)
  {
    assert (desc + [item])[..|desc|] == desc;
  }

  lemma WriterNamesMore(json: seq<JsonItem>, item: JsonItem)
    ensures WriterNames(json + [item])
         == if item.WriterHead? || item.WriterFoot? then WriterNames(json) + [item.name] else WriterNames(json)
  {
    assert (json + [item])[..|json|] == json;
  }

  /** The heads written so far carry the struct's name; a closed predicate. */
  ghost predicate HeadsCarry(name: string, desc: seq<DescItem>, json: seq<JsonItem>) {
    forall x :: Opened(x) ==> TableNames(desc) == [name] && WriterNames(json) == [name]
  }

  lemma NoNames()
    ensures TableNames([]) == [] && WriterNames([]) == []
  {
  }

  lemma HeadsWritten(name: string)
    ensures HeadsCarry(name, [TableHead(name)], [WriterHead(name)])
  {
    var head, writer := TableHead(name), WriterHead(name);
    NoNames();
    TableNamesMore([], head);
    WriterNamesMore([], writer);
    assert [] + [head] == [head];
    assert [] + [writer] == [writer];
    assert [] + [name] == [name];
    assert TableNames([head]) == [name] && WriterNames([writer]) == [name];
  }

  lemma HeadsStay(name: string, desc: seq<DescItem>, json: seq<JsonItem>, e: DescItem, a: JsonItem)
    requires HeadsCarry(name, desc, json) && !e.TableHead? && !a.WriterHead? && !a.WriterFoot?
    ensures HeadsCarry(name, desc + [e], json + [a]) && HeadsCarry(name, desc, json + [a])
  {
    assert Opened(0);
    TableNamesMore(desc, e);
    WriterNamesMore(json, a);
  }

  lemma FootsCarry(name: string, desc: seq<DescItem>, json: seq<JsonItem>)
    requires HeadsCarry(name, desc, json)
    ensures TableNames(desc + [TableFoot]) == [name] && WriterNames(json + [WriterFoot(name)]) == [name, name]
  {
    assert Opened(0);
    TableNamesMore(desc, TableFoot);
    WriterNamesMore(json, WriterFoot(name));
  }

  ghost predicate JsonAgrees(tables: Tables, json: seq<JsonItem>, entries: seq<DescItem>, nested: Path, fields: seq<Leaf>) {
    ReadJson(json) == Some(Replay(nested, With(tables.j, fields), Names(entries)))
  }

  ghost predicate HeaderAgrees(tables: Tables, header: seq<HeaderItem>, nested: Path, fields: seq<Leaf>) {
    var s := ReadHeader(header);
    s.Inside? && |s.levels| == |nested| + 1 && Combined(s.levels, nested) == InC(tables.c, fields)
  }

  function Names(entries: seq<DescItem>): (names: seq<string>)
    ensures |names| == |entries|
  {
    seq(|entries|, i requires 0 <= i < |entries| => if entries[i].Entry? then entries[i].name else "")
  }

  ghost predicate EntriesName(tables: Tables, entries: seq<DescItem>, fields: seq<Leaf>) {
    && |entries| == |fields|
    && forall i :: 0 <= i < |fields| ==>
         var path := fields[i].path;
         path != [] && entries[i] == Entry(FullName(Join(path[..|path| - 1]), path[|path| - 1]),
                                           Translated(tables.c, fields[i].kind), Translated(tables.a, fields[i].kind))
  }

  lemma EntriesNameMore(tables: Tables, entries: seq<DescItem>, fields: seq<Leaf>, nested: Path, varName: string, varType: string)
    requires EntriesName(tables, entries, fields)
    ensures var e := Entry(FullName(Join(nested), varName), Translated(tables.c, varType), Translated(tables.a, varType));
            EntriesName(tables, entries + [e], fields + [Leaf(nested + [varName], varType)])
  {
    assert (nested + [varName])[..|nested|] == nested;
  }

  /**
   * One entry a variable, with both its types. Its name is the dotted path iff it is not directly inside a
   * lone nameless struct; and it is the member of the C struct, which offsetof and the JSON writer need, iff
   * the variable is in no nameless struct or in that one only.
   */
  ghost predicate TableAgrees(tables: Tables, entries: seq<DescItem>, fields: seq<Leaf>) {
    && |entries| == |fields|
    && forall i :: 0 <= i < |fields| ==> EntryAgrees(tables, entries[i], fields[i])
  }

  ghost predicate EntryAgrees(tables: Tables, e: DescItem, f: Leaf) {
    && f.path != [] && e.Entry?
    && e.ctype == Translated(tables.c, f.kind) && e.atype == Translated(tables.a, f.kind)
    && var k := |f.path| - 1;
       && (e.name == Join(f.path) <==> f.path[..k] != [""])
       && (e.name == Join(CStructs(f.path[..k]) + [f.path[k]]) <==> NoNameless(f.path[..k]) || f.path[..k] == [""])
  }

  lemma NamesAreJoined(tables: Tables, entries: seq<DescItem>, fields: seq<Leaf>)
    requires EntriesName(tables, entries, fields)
    ensures TableAgrees(tables, entries, fields)
  {
    forall i | 0 <= i < |fields| ensures EntryAgrees(tables, entries[i], fields[i]) {
      var path := fields[i].path;
      var k := |path| - 1;
      assert path[..k] + [path[k]] == path;
      FullNameIsPath(path[..k], path[k]);
      NamesMemberIff(path[..k], path[k]);
    }
  }

  lemma FieldInJson(tables: Tables, json: seq<JsonItem>, entries: seq<DescItem>, nested: Path, fields: seq<Leaf>, varType: string, e: DescItem, name: string)
    requires JsonAgrees(tables, json, entries, nested, fields) && e.Entry?
    ensures JsonAgrees(tables, json + [Add(Translated(tables.j, varType), name, e.name)], entries + [e], nested, fields + [Leaf(nested + [name], varType)])
  {
    ReadJsonMore(json, Add(Translated(tables.j, varType), name, e.name));
    WithMore(tables.j, fields, Leaf(nested + [name], varType));
    assert Names(entries + [e]) == Names(entries) + [e.name];
  }

  lemma FieldInLevels(table: map<string, string>, levels: seq<seq<Leaf>>, nested: Path, fields: seq<Leaf>, varType: string, name: string)
    requires |levels| == |nested| + 1 && Combined(levels, nested) == InC(table, fields)
    ensures Combined(AddLast(levels, CMember([], name, Translated(table, varType))), nested)
         == InC(table, fields + [Leaf(nested + [name], varType)])
  {
    CombinedMember(levels, nested, name, Translated(table, varType));
    InCMore(table, fields, nested, name, varType);
  }

  lemma FieldInHeader(tables: Tables, header: seq<HeaderItem>, nested: Path, fields: seq<Leaf>, varType: string, name: string)
    requires HeaderAgrees(tables, header, nested, fields)
    ensures HeaderAgrees(tables, header + [Member(Translated(tables.c, varType), name)], nested, fields + [Leaf(nested + [name], varType)])
  {
    var m, s := Member(Translated(tables.c, varType), name), ReadHeader(header);
    ReadHeaderMore(header, m);
    assert ReadItem(s, m) == Inside(AddLast(s.levels, CMember([], name, m.ctype)));
    FieldInLevels(tables.c, s.levels, nested, fields, varType, name);
  }

  /** A variable enters all three files. */
  lemma FieldAgrees(tables: Tables, header: seq<HeaderItem>, desc: seq<DescItem>, json: seq<JsonItem>,
                    nested: Path, fields: seq<Leaf>, varType: string, varName: string, m: HeaderItem, e: DescItem, a: JsonItem)
    requires AllAgree(tables, header, desc, json, nested, fields)
    requires m == Member(Translated(tables.c, varType), varName)
    requires e == Entry(FullName(Join(nested), varName), Translated(tables.c, varType), Translated(tables.a, varType))
    requires a == Add(Translated(tables.j, varType), varName, e.name)
    ensures AllAgree(tables, header + [m], desc + [e], json + [a], nested, fields + [Leaf(nested + [varName], varType)])
  {
    assert Opened(0);
    EntriesMore(desc, e);
    FieldInHeader(tables, header, nested, fields, varType, varName);
    FieldInJson(tables, json, Entries(desc), nested, fields, varType, e, varName);
    EntriesNameMore(tables, Entries(desc), fields, nested, varName, varType);
  }

  /** The three outputs describe these fields, and leave these structs open; a closed predicate. */
  ghost predicate AllAgree(tables: Tables, header: seq<HeaderItem>, desc: seq<DescItem>, json: seq<JsonItem>, nested: Path, fields: seq<Leaf>) {
    forall x :: Opened(x) ==>
      && JsonAgrees(tables, json, Entries(desc), nested, fields)
      && HeaderAgrees(tables, header, nested, fields)
      && EntriesName(tables, Entries(desc), fields)
  }

  /** A struct is opened in the header and as a node. */
  lemma OpenAgrees(tables: Tables, header: seq<HeaderItem>, desc: seq<DescItem>, json: seq<JsonItem>, nested: Path, fields: seq<Leaf>, name: string)
    requires AllAgree(tables, header, desc, json, nested, fields)
    ensures AllAgree(tables, header + [StructOpen], desc, json + [AddNode(name)], nested + [name], fields)
  {
    assert Opened(0);
    ReadHeaderMore(header, StructOpen);
    ReadJsonMore(json, AddNode(name));
    CombinedOpen(ReadHeader(header).levels, nested, name);
  }

  /** The innermost struct is closed in both. */
  lemma CloseAgrees(tables: Tables, header: seq<HeaderItem>, desc: seq<DescItem>, json: seq<JsonItem>, nested: Path, fields: seq<Leaf>)
    requires nested != [] && AllAgree(tables, header, desc, json, nested, fields)
    ensures var k := |nested| - 1;
            AllAgree(tables, header + [StructClose(nested[k])], desc, json + [EndNode], nested[..k], fields)
  {
    assert Opened(0);
    ReadHeaderMore(header, StructClose(nested[|nested| - 1]));
    ReadJsonMore(json, EndNode);
    CombinedClose(ReadHeader(header).levels, nested);
  }

  lemma FootAgrees(tables: Tables, header: seq<HeaderItem>, json: seq<JsonItem>, entries: seq<DescItem>, nested: Path, fields: seq<Leaf>, name: string)
    requires HeaderAgrees(tables, header, nested, fields) && JsonAgrees(tables, json, entries, nested, fields)
    ensures ReadHeader(header + [StructFoot(name)]) == if nested == [] then Whole(InC(tables.c, fields), name) else Malformed
    ensures JsonAgrees(tables, json + [WriterFoot(name)], entries, nested, fields)
  {
    ReadHeaderMore(header, StructFoot(name));
    ReadJsonMore(json, WriterFoot(name));
  }

  // ---------------------------------------------------------------------------------------------
  // The script
  // ---------------------------------------------------------------------------------------------

  /** Does the script get through these lines? Fields need a known type and a struct in front of them. */
  predicate Accepts(tables: Tables, gotName: bool, lines: seq<Line>)
    decreases |lines|
  {
    lines == [] ||
    match lines[0]
    case Blank => Accepts(tables, gotName, lines[1..])
    case Open(_) => Accepts(tables, true, lines[1..])
    case Close => Accepts(tables, gotName, lines[1..])
    case Field(varType, _) => gotName && KnownType(tables, varType) && Accepts(tables, gotName, lines[1..])
    case Invalid => false
  }

  /** The lines that need a struct in front of them have one, and their types are known. */
  predicate LineOk(tables: Tables, lines: seq<Line>, i: nat)
    requires i < |lines|
  {
    && !lines[i].Invalid?
    && (lines[i].Field? ==> KnownType(tables, lines[i].varType) && exists j :: 0 <= j < i && lines[j].Open?)
  }

  /** The script gets through iff no line is invalid and every variable has a known type and a struct before it. */
  lemma {:induction false} AcceptsIff(tables: Tables, lines: seq<Line>)
    ensures Accepts(tables, false, lines) <==> forall i :: 0 <= i < |lines| ==> LineOk(tables, lines, i)
    decreases |lines|
  {
    if lines != [] {
      var last := |lines| - 1;
      var front := lines[..last];
      AcceptsIff(tables, front);
      AcceptsLast(tables, false, lines);
      SameFront(tables, lines);
    }
  }

  predicate AnyOpen(lines: seq<Line>) {
    exists j :: 0 <= j < |lines| && lines[j].Open?
  }

  lemma {:induction false} AcceptsLast(tables: Tables, gotName: bool, lines: seq<Line>)
    requires lines != []
    ensures var last := |lines| - 1;
            Accepts(tables, gotName, lines) <==>
              Accepts(tables, gotName, lines[..last]) && Accepts(tables, gotName || AnyOpen(lines[..last]), [lines[last]])
    decreases |lines|
  {
    var last := |lines| - 1;
    if last == 0 {
      assert lines == [lines[0]] && lines[..0] == [];
    } else {
      var tail := lines[1..];
      AcceptsFirst(tables, gotName, lines);
      AcceptsFirst(tables, gotName, lines[..last]);
      AcceptsLast(tables, gotName || lines[0].Open?, tail);
      assert lines[..last][1..] == tail[..last - 1] && lines[..last][0] == lines[0] && tail[last - 1] == lines[last];
      OpenInTail(lines[..last]);
    }
  }

  lemma OpenInTail(lines: seq<Line>)
    requires lines != []
    ensures AnyOpen(lines) <==> lines[0].Open? || AnyOpen(lines[1..])
  {
    if AnyOpen(lines) && !lines[0].Open? {
      var j :| 0 <= j < |lines| && lines[j].Open?;
      assert lines[1..][j - 1] == lines[j];
    }
    if AnyOpen(lines[1..]) {
      var j :| 0 <= j < |lines[1..]| && lines[1..][j].Open?;
      assert lines[j + 1] == lines[1..][j];
    }
  }

  lemma SameFront(tables: Tables, lines: seq<Line>)
    requires lines != []
    ensures var last := |lines| - 1;
            && (forall i :: 0 <= i < last ==> LineOk(tables, lines[..last], i) == LineOk(tables, lines, i))
            && (LineOk(tables, lines, last) <==> Accepts(tables, AnyOpen(lines[..last]), [lines[last]]))
  {
    var last := |lines| - 1;
    var front := lines[..last];
    assert [lines[last]][1..] == [];
    forall i | 0 <= i < last ensures LineOk(tables, front, i) == LineOk(tables, lines, i) {
      if exists j :: 0 <= j < i && lines[j].Open? {
        var j :| 0 <= j < i && lines[j].Open?;
        assert front[j].Open?;
      }
      if exists j :: 0 <= j < i && front[j].Open? {
        var j :| 0 <= j < i && front[j].Open?;
        assert lines[j].Open?;
      }
    }
    if exists j :: 0 <= j < last && lines[j].Open? {
      var j :| 0 <= j < last && lines[j].Open?;
      assert front[j].Open?;
    }
    if AnyOpen(front) {
      var j :| 0 <= j < |front| && front[j].Open?;
      assert lines[j].Open?;
    }
  }

  /**
   * What the lines declare: the first name is the struct's own, instead of the file's, later ones nest; `open`
   * are those left open.
   */
  datatype Declared = Declared(name: string, gotName: bool, open: Path, fields: seq<Leaf>)

  function DeclaredOne(d: Declared, line: Line): Declared {
    match line
    case Open(name) => if d.gotName then d.(open := d.open + [name]) else d.(gotName := true, name := name)
    case Close => if d.open == [] then d else d.(open := d.open[..|d.open| - 1])
    case Field(varType, varName) => d.(fields := d.fields + [Leaf(d.open + [varName], varType)])
    case _ => d
  }

  function DeclaredBy(fileName: string, lines: seq<Line>): Declared {
    if lines == [] then Declared(fileName, false, [], [])
    else DeclaredOne(DeclaredBy(fileName, lines[..|lines| - 1]), lines[|lines| - 1])
  }

  /** The struct is named by the first line that opens one. */
  lemma {:induction false} NamedByFirstOpen(fileName: string, lines: seq<Line>)
    ensures var d := DeclaredBy(fileName, lines);
            && d.gotName == AnyOpen(lines)
            && (!AnyOpen(lines) ==> d.name == fileName)
            && forall k :: 0 <= k < |lines| && lines[k].Open? && !AnyOpen(lines[..k]) ==> d.name == lines[k].name
    decreases |lines|
  {
    if lines != [] {
      var last := |lines| - 1;
      var front := lines[..last];
      NamedByFirstOpen(fileName, front);
      assert lines == front + [lines[last]];
      assert AnyOpen(lines) <==> AnyOpen(front) || lines[last].Open? by {
        if AnyOpen(front) {
          var j :| 0 <= j < |front| && front[j].Open?;
          assert lines[j].Open?;
        }
        if AnyOpen(lines) && !lines[last].Open? {
          var j :| 0 <= j < |lines| && lines[j].Open?;
          assert front[j].Open?;
        }
      }
      forall k | 0 <= k < |lines| && lines[k].Open? && !AnyOpen(lines[..k])
        ensures DeclaredBy(fileName, lines).name == lines[k].name
      {
        if k < last {
          assert front[..k] == lines[..k] && front[k] == lines[k];
        }
      }
    }
  }

  // ---------------------------------------------------------------------------------------------
  // Descriptions written from a tree
  // ---------------------------------------------------------------------------------------------

  datatype Node = Var(varType: string, name: string) | Sub(name: string, members: seq<Node>)

  /** A description of these members, one line each, as the script expects it. */
  function LinesOf(members: seq<Node>): seq<Line> {
    if members == [] then []
    else
      (match members[0]
       case Var(varType, name) => [Line.Field(varType, name)]
       case Sub(name, inner) => [Line.Open(name)] + LinesOf(inner) + [Line.Close])
      + LinesOf(members[1..])
  }

  /** The variables of the tree, depth first. */
  function LeavesOf(members: seq<Node>, at: Path): seq<Leaf> {
    if members == [] then []
    else
      (match members[0]
       case Var(varType, name) => [Leaf(at + [name], varType)]
       case Sub(name, inner) => LeavesOf(inner, at + [name]))
      + LeavesOf(members[1..], at)
  }

  function DeclareOn(d: Declared, lines: seq<Line>): Declared
    decreases |lines|
  {
    if lines == [] then d else DeclareOn(DeclaredOne(d, lines[0]), lines[1..])
  }

  lemma {:induction false} DeclareOnConcat(d: Declared, a: seq<Line>, b: seq<Line>)
    ensures DeclareOn(d, a + b) == DeclareOn(DeclareOn(d, a), b)
    decreases |a|
  {
    if a == [] {
      assert a + b == b;
    } else {
      assert (a + b)[1..] == a[1..] + b && (a + b)[0] == a[0];
      DeclareOnConcat(DeclaredOne(d, a[0]), a[1..], b);
    }
  }

  lemma {:induction false} DeclaredByIsOn(fileName: string, lines: seq<Line>)
    ensures DeclaredBy(fileName, lines) == DeclareOn(Declared(fileName, false, [], []), lines)
    decreases |lines|
  {
    if lines != [] {
      var last := |lines| - 1;
      DeclaredByIsOn(fileName, lines[..last]);
      DeclareOnConcat(Declared(fileName, false, [], []), lines[..last], [lines[last]]);
      assert lines[..last] + [lines[last]] == lines;
      DeclareOnOne(DeclaredBy(fileName, lines[..last]), lines[last]);
    }
  }

  lemma DeclareOnOne(d: Declared, line: Line)
    ensures DeclareOn(d, [line]) == DeclaredOne(d, line)
  {
    assert [line][1..] == [];
    assert DeclareOn(DeclaredOne(d, line), []) == DeclaredOne(d, line);
  }

  /** Read back inside an open struct, the members are declared there, in order, and nothing is left open. */
  lemma {:induction false} MembersReadBack(d: Declared, members: seq<Node>)
    requires d.gotName
    ensures DeclareOn(d, LinesOf(members)) == d.(fields := d.fields + LeavesOf(members, d.open))
    decreases members
  {
    if members == [] {
      assert d.fields + [] == d.fields;
    } else {
      var rest := members[1..];
      var d1 := FirstReadsBack(d, members);
      MembersReadBack(d1, rest);
      match members[0]
      case Var(varType, name) =>
        DeclareOnConcat(d, [Line.Field(varType, name)], LinesOf(rest));
        Associative(d.fields, [Leaf(d.open + [name], varType)], LeavesOf(rest, d.open));
      case Sub(name, inner) =>
        DeclareOnConcat(d, [Line.Open(name)] + LinesOf(inner) + [Line.Close], LinesOf(rest));
        Associative(d.fields, LeavesOf(inner, d.open + [name]), LeavesOf(rest, d.open));
    }
  }

  lemma {:induction false} FirstReadsBack(d: Declared, members: seq<Node>) returns (d1: Declared)
    requires d.gotName && members != []
    ensures match members[0]
            case Var(varType, name) =>
              && d1 == DeclareOn(d, [Line.Field(varType, name)])
              && d1 == d.(fields := d.fields + [Leaf(d.open + [name], varType)])
            case Sub(name, inner) =>
              && d1 == DeclareOn(d, [Line.Open(name)] + LinesOf(inner) + [Line.Close])
              && d1 == d.(fields := d.fields + LeavesOf(inner, d.open + [name]))
    decreases members, 0
  {
    match members[0]
    case Var(varType, name) =>
      DeclareOnOne(d, Line.Field(varType, name));
      d1 := DeclaredOne(d, Line.Field(varType, name));
    case Sub(name, inner) =>
      var inside := d.(open := d.open + [name]);
      DeclareOnOne(d, Line.Open(name));
      MembersReadBack(inside, inner);
      var behind := inside.(fields := d.fields + LeavesOf(inner, d.open + [name]));
      DeclareOnConcat(d, [Line.Open(name)], LinesOf(inner));
      DeclareOnConcat(d, [Line.Open(name)] + LinesOf(inner), [Line.Close]);
      DeclareOnOne(behind, Line.Close);
      assert behind.open[..|behind.open| - 1] == d.open;
      d1 := DeclaredOne(behind, Line.Close);
  }

  /** A description written from a tree declares that tree, under the name in front of it. */
  lemma DescriptionReadsBack(fileName: string, name: string, members: seq<Node>)
    ensures DeclaredBy(fileName, [Line.Open(name)] + LinesOf(members) + [Line.Close])
         == Declared(name, true, [], LeavesOf(members, []))
  {
    var start := Declared(fileName, false, [], []);
    var named := Declared(name, true, [], []);
    DeclaredByIsOn(fileName, [Line.Open(name)] + LinesOf(members) + [Line.Close]);
    DeclareOnConcat(start, [Line.Open(name)] + LinesOf(members), [Line.Close]);
    DeclareOnConcat(start, [Line.Open(name)], LinesOf(members));
    DeclareOnOne(start, Line.Open(name));
    MembersReadBack(named, members);
    assert [] + LeavesOf(members, []) == LeavesOf(members, []);
    DeclareOnOne(Declared(name, true, [], LeavesOf(members, [])), Line.Close);
  }

  class Generator {
    const tables: Tables
    var nested: Path
    var fullPath: string
    var gotName: bool
    var structName: string
    var header: seq<HeaderItem>
    var desc: seq<DescItem>
    var json: seq<JsonItem>
    /** Every variable so far, with its type as the input words it. */
    ghost var fields: seq<Leaf>

    ghost predicate Before()
      reads this
    {
      nested == [] && header == [] && desc == [] && json == [] && fields == []
    }

    /** The three outputs agree, while structs are still open. */
    ghost predicate Valid()
      reads this
    {
      && fullPath == Join(nested)
      && (if gotName then AllAgree(tables, header, desc, json, nested, fields) && HeadsCarry(structName, desc, json) else Before())
    }

    constructor (tables: Tables, structName: string)
      ensures this.tables == tables && this.structName == structName && Valid() && !gotName && nested == [] && fields == []
    {
      this.tables := tables;
      nested, fullPath, gotName, this.structName := [], "", false, structName;
      header, desc, json, fields := [], [], [], [];
    }

    method WriteHeads()
      requires Valid() && !gotName
      modifies this
      ensures Valid() && gotName && nested == old(nested) && fields == old(fields) && structName == old(structName)
    {
      assert Opened(0);
      ReadHeaderMore(header, StructHead);
      EntriesMore(desc, TableHead(structName));
      ReadJsonMore(json, WriterHead(structName));
      HeadsWritten(structName);
      desc := desc + [TableHead(structName)];
      header := header + [StructHead];
      json := json + [WriterHead(structName)];
      gotName := true;
    }

    /** processLine */
    method ProcessLine(varType: string, varName: string) returns (ok: bool)
      requires Valid() && gotName
      modifies this
      ensures ok == KnownType(tables, varType)
      ensures ok ==> Valid() && gotName && nested == old(nested) && fields == old(fields) + [Leaf(nested + [varName], varType)]
      ensures structName == old(structName)
    {
      if varType !in tables.c || varType !in tables.a || varType !in tables.j {
        return false;
      }
      OutputField(varType, tables.c[varType], tables.a[varType], tables.j[varType], varName);
      ok := true;
    }

    method OutputField(ghost varType: string, ctype: string, atype: string, jtype: string, varName: string)
      requires Valid() && gotName
      requires ctype == Translated(tables.c, varType) && atype == Translated(tables.a, varType) && jtype == Translated(tables.j, varType)
      modifies `header, `desc, `json, `fields
      ensures Valid() && fields == old(fields) + [Leaf(nested + [varName], varType)]
    {
      var fullName := FullName(fullPath, varName);
      var m, e, a := Member(ctype, varName), Entry(fullName, ctype, atype), Add(jtype, varName, fullName);
      FieldAgrees(tables, header, desc, json, nested, fields, varType, varName, m, e, a);
      HeadsStay(structName, desc, json, e, a);
      header := header + [m];
      desc := desc + [e];
      json := json + [a];
      fields := fields + [Leaf(nested + [varName], varType)];
    }

    method OpenStruct(name: string)
      requires Valid() && gotName
      modifies this
      ensures Valid() && gotName && nested == old(nested) + [name] && fields == old(fields) && structName == old(structName)
    {
      OpenAgrees(tables, header, desc, json, nested, fields, name);
      HeadsStay(structName, desc, json, TableFoot, AddNode(name));
      header := header + [StructOpen];
      nested := nested + [name];
      fullPath := Join(nested);
      json := json + [AddNode(name)];
    }

    method CloseStruct()
      requires Valid()
      modifies this
      ensures Valid() && gotName == old(gotName) && fields == old(fields) && structName == old(structName)
      ensures nested == if old(nested) == [] then [] else old(nested)[..|old(nested)| - 1]
    {
      if |nested| != 0 {
        CloseAgrees(tables, header, desc, json, nested, fields);
        HeadsStay(structName, desc, json, TableFoot, EndNode);
        var last := nested[|nested| - 1];
        nested := nested[..|nested| - 1];
        json := json + [EndNode];
        header := header + [StructClose(last)];
      }
      fullPath := Join(nested);
    }

    method ReadLine(line: Line) returns (ok: bool)
      requires Valid()
      modifies this
      ensures ok == Accepts(tables, old(gotName), [line])
      ensures ok ==> Valid() && Declared(structName, gotName, nested, fields) == DeclaredOne(old(Declared(structName, gotName, nested, fields)), line)
    {
      ok := true;
      match line
      case Blank =>
      case Open(name) =>
        if |nested| == 0 && !gotName {
          structName := name;
          WriteHeads();
        } else {
          OpenStruct(name);
        }
      case Close => CloseStruct();
      case Field(varType, varName) =>
        if !gotName {
          return false;
        }
        ok := ProcessLine(varType, varName);
      case Invalid => ok := false;
    }

    /** The main loop and the footers. */
    method Generate(lines: seq<Line>) returns (ok: bool)
      requires Valid() && !gotName
      modifies this
      ensures ok == Accepts(tables, false, lines)
      ensures ok ==> Declared(structName, gotName, nested, fields) == DeclaredBy(old(structName), lines)
      ensures ok && gotName ==> Agreement()
    {
      var i := 0;
      assert Declared(structName, gotName, nested, fields) == DeclaredBy(old(structName), lines[..0]);
      while i < |lines|
        invariant i <= |lines| && Valid()
        invariant Declared(structName, gotName, nested, fields) == DeclaredBy(old(structName), lines[..i])
        invariant Accepts(tables, false, lines) == Accepts(tables, gotName, lines[i..])
      {
        AcceptsFirst(tables, gotName, lines[i..]);
        assert lines[i..][1..] == lines[i + 1..] && lines[..i + 1][..i] == lines[..i];
        var going := ReadLine(lines[i]);
        if !going {
          return false;
        }
        i := i + 1;
      }
      assert lines[..i] == lines && lines[i..] == [];
      WriteFoots();
      ok := true;
    }

    /**
     * The finished files. The JSON writer's calls replay to the declared tree and take their values from
     * the very names of the table; the table names the same variables in the same order; and the header is
     * a whole struct, whose members are what C makes of these declarations, exactly if the lines close what
     * they open. Each file words the types as its table says, and all carry the struct's name: the struct
     * itself, the head of the table, and head and foot of the writer.
     */
    ghost predicate Agreement()
      reads this
    {
      && JsonAgrees(tables, json, Entries(desc), nested, fields)
      && ReadHeader(header) == (if nested == [] then Whole(InC(tables.c, fields), structName) else Malformed)
      && TableAgrees(tables, Entries(desc), fields)
      && TableNames(desc) == [structName] && WriterNames(json) == [structName, structName]
    }

    method WriteFoots()
      requires Valid()
      modifies this
      ensures structName == old(structName) && gotName == old(gotName) && nested == old(nested) && fields == old(fields)
      ensures gotName ==> Agreement()
    {
      EntriesMore(desc, TableFoot);
      if gotName {
        FootsCarry(structName, desc, json);
        assert Opened(0);
        FootAgrees(tables, header, json, Entries(desc), nested, fields, structName);
        NamesAreJoined(tables, Entries(desc), fields);
      }
      desc := desc + [TableFoot];
      header := header + [StructFoot(structName)];
      json := json + [WriterFoot(structName)];
    }
  }

  /** Acceptance goes line by line. */
  lemma AcceptsFirst(tables: Tables, gotName: bool, lines: seq<Line>)
    requires lines != []
    ensures Accepts(tables, gotName, lines) <==> Accepts(tables, gotName, [lines[0]]) && Accepts(tables, gotName || lines[0].Open?, lines[1..])
  {
    assert [lines[0]][1..] == [];
  }
}
