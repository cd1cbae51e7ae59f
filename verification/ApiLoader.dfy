/** Loading the description of an API into a table: for every interface its enums, structs and
    functions by name. */
module ApiLoader {
  import opened Common
  import opened Xml

  /** `tonumber` on the text of an attribute; rounding is not part of the model. */
  type ToNumber = string -> Option<real>

  datatype Flag = Given(text: string) | Default(value: bool)

  /** The data of a parameter of a struct or function. The result codes are a list with holes: an
      element without a name leaves its position (counted from 0 here) empty. */
  datatype Param = Param(ptype: Option<string>, mandatory: Flag, isArray: Flag,
                         bounds: map<string, real>, resultCodes: Option<map<nat, string>>,
                         since: Option<string>, deprecated: Option<string>)

  datatype Struct = Struct(name: string, params: map<string, Param>)

  datatype Function = Function(name: string, messageType: string, params: map<string, Param>)

  datatype Interface = Interface(body: Node, version: string,
                                 functions: map<string, map<string, Function>>,
                                 enums: map<string, map<string, real>>,
                                 structs: map<string, Struct>)

  const MESSAGE_TYPES: set<string> := {"request", "response", "notification"}

  const NO_FUNCTIONS: map<string, map<string, Function>> := map t | t in MESSAGE_TYPES :: map[]

  const BOUNDS: set<string> := {"minlength", "maxlength", "minsize", "maxsize", "minvalue", "maxvalue", "defvalue"}

  predicate HasName(node: Node) {
    Attr(node, "name").Some?
  }

  function Name(node: Node): string
    requires HasName(node)
  {
    Attr(node, "name").value
  }

  predicate AllNamed(nodes: seq<Node>) {
    forall i :: 0 <= i < |nodes| ==> HasName(nodes[i])
  }

  // ---------- tables in which the last entry of a name wins ----------

  datatype Entry<V> = Entry(name: string, value: V)

  /** Entering values under their names, one after the other. */
  function Table<V>(entries: seq<Entry<V>>): map<string, V> {
    if entries == [] then map[] else
    var last := entries[|entries| - 1];
    Table(entries[..|entries| - 1])[last.name := last.value]
  }

  /** The last entry of that name. */
  ghost predicate IsLast<V(!new)>(entries: seq<Entry<V>>, name: string, i: int) {
    && 0 <= i < |entries| && entries[i].name == name
    && forall j :: i < j < |entries| ==> entries[j].name != name
  }

  /** A table that answers every name with a search for its last entry. */
  ghost predicate LastWins<V(!new)>(table: map<string, V>, entries: seq<Entry<V>>) {
    && (forall name :: name in table <==> exists i :: 0 <= i < |entries| && entries[i].name == name)
    && (forall name, i :: IsLast(entries, name, i) ==> name in table && table[name] == entries[i].value)
  }

  lemma {:induction false} TableIsLastWins<V(!new)>(entries: seq<Entry<V>>)
    ensures LastWins(Table(entries), entries)
  {
    if entries != [] {
      var n := |entries| - 1;
      var front := entries[..n];
      TableIsLastWins(front);
      assert entries == front + [entries[n]];
      forall name, i | IsLast(entries, name, i)
        ensures name in Table(entries) && Table(entries)[name] == entries[i].value
      {
        if i < n {
          assert IsLast(front, name, i);
        }
      }
    }
  }

  lemma {:induction false} LastExists<V(!new)>(entries: seq<Entry<V>>, i: int) returns (k: int)
    requires 0 <= i < |entries|
    ensures i <= k && IsLast(entries, entries[i].name, k)
    decreases |entries| - i
  {
    if j :| i < j < |entries| && entries[j].name == entries[i].name {
      k := LastExists(entries, j);
    } else {
      k := i;
    }
  }

  /** The search determines the table. */
  lemma LastWinsDetermines<V(!new)>(a: map<string, V>, b: map<string, V>, entries: seq<Entry<V>>)
    requires LastWins(a, entries) && LastWins(b, entries)
    ensures a == b
  {
    forall name | name in a
      ensures name in b && a[name] == b[name]
    {
      var i :| 0 <= i < |entries| && entries[i].name == name;
      var k := LastExists(entries, i);
    }
  }

  lemma TableGrows<V>(entries: seq<Entry<V>>, entry: Entry<V>)
    ensures Table(entries + [entry]) == Table(entries)[entry.name := entry.value]
  {
  }

  // ---------- enums ----------

  /** The values the elements of an enum give themselves. */
  function OwnValue(element: Node, num: ToNumber): Option<real> {
    var value := Attr(element, "value");
    if value.Some? then num(value.value) else None
  }

  function OwnValues(elements: seq<Node>, num: ToNumber): (r: seq<Option<real>>)
    ensures |r| == |elements|
  {
    seq(|elements|, k requires 0 <= k < |elements| => OwnValue(elements[k], num))
  }

  /** The number of an enum element: its own value if it has one, else one more than its
      predecessor's, starting from 1. */
  function NumberOf(own: seq<Option<real>>, k: nat): real
    requires k < |own|
  {
    if own[k].Some? then own[k].value else if k == 0 then 1.0 else NumberOf(own, k - 1) + 1.0
  }

  function Elements(nodes: seq<Node>, num: ToNumber): (r: seq<Entry<real>>)
    requires AllNamed(nodes)
    ensures |r| == |nodes|
  {
    seq(|nodes|, k requires 0 <= k < |nodes| => Entry(Name(nodes[k]), NumberOf(OwnValues(nodes, num), k)))
  }

  /** In closed form: the distance to the closest element at or before it that has a value. */
  lemma {:induction false} NumberCounts(own: seq<Option<real>>, j: nat, k: nat)
    requires j <= k < |own|
    requires forall i :: j < i <= k ==> own[i].None?
    ensures NumberOf(own, k) == NumberOf(own, j) + (k - j) as real
    ensures j == 0 && own[0].None? ==> NumberOf(own, k) == (k + 1) as real
    ensures own[j].Some? ==> NumberOf(own, k) == own[j].value + (k - j) as real
  {
    if j < k {
      NumberCounts(own, j, k - 1);
    }
  }

  /** Without explicit values the numbers are all different. */
  lemma UnvaluedNumbersDiffer(own: seq<Option<real>>, j: nat, k: nat)
    requires j < k < |own| && forall i :: 0 <= i < |own| ==> own[i].None?
    ensures NumberOf(own, j) < NumberOf(own, k)
  {
  }

  predicate EnumFine(node: Node) {
    HasName(node) && AllNamed(Named(node, "element"))
  }

  function EnumOf(node: Node, num: ToNumber): map<string, real>
    requires EnumFine(node)
  {
    Table(Elements(Named(node, "element"), num))
  }

  predicate EnumsFine(nodes: seq<Node>) {
    forall i :: 0 <= i < |nodes| ==> EnumFine(nodes[i])
  }

  function Enums(nodes: seq<Node>, num: ToNumber): (r: seq<Entry<map<string, real>>>)
    requires EnumsFine(nodes)
    ensures |r| == |nodes|
  {
    seq(|nodes|, i requires 0 <= i < |nodes| => Entry(Name(nodes[i]), EnumOf(nodes[i], num)))
  }

  // ---------- parameters, structs and functions ----------

  function ResultCodes(elements: seq<Node>): map<nat, string> {
    map i: nat | i < |elements| && HasName(elements[i]) :: Name(elements[i])
  }

  function FlagOf(text: Option<string>, default: bool): Flag {
    if text.Some? then Given(text.value) else Default(default)
  }

  function BoundsOf(node: Node, num: ToNumber): map<string, real> {
    map b | b in BOUNDS && Attr(node, b).Some? && num(Attr(node, b).value).Some? :: num(Attr(node, b).value).value
  }

  function ParamOf(node: Node, num: ToNumber): Param {
    Param(Attr(node, "type"), FlagOf(Attr(node, "mandatory"), true), FlagOf(Attr(node, "array"), false),
          BoundsOf(node, num),
          if Attr(node, "name") == Some("resultCode") && Attr(node, "type") == Some("Result")
          then Some(ResultCodes(Named(node, "element"))) else None,
          Attr(node, "since"), Attr(node, "deprecated"))
  }

  predicate ParamsFine(node: Node) {
    HasName(node) && AllNamed(Named(node, "param"))
  }

  function Params(nodes: seq<Node>, num: ToNumber): (r: seq<Entry<Param>>)
    requires AllNamed(nodes)
    ensures |r| == |nodes|
  {
    seq(|nodes|, i requires 0 <= i < |nodes| => Entry(Name(nodes[i]), ParamOf(nodes[i], num)))
  }

  function ParamTable(node: Node, num: ToNumber): map<string, Param>
    requires ParamsFine(node)
  {
    Table(Params(Named(node, "param"), num))
  }

  predicate StructsFine(nodes: seq<Node>) {
    forall i :: 0 <= i < |nodes| ==> ParamsFine(nodes[i])
  }

  function StructOf(node: Node, num: ToNumber): Struct
    requires ParamsFine(node)
  {
    Struct(Name(node), ParamTable(node, num))
  }

  function Structs(nodes: seq<Node>, num: ToNumber): (r: seq<Entry<Struct>>)
    requires StructsFine(nodes)
    ensures |r| == |nodes|
  {
    seq(|nodes|, i requires 0 <= i < |nodes| => Entry(Name(nodes[i]), StructOf(nodes[i], num)))
  }

  predicate FunctionFine(types: set<string>, node: Node) {
    ParamsFine(node) && Attr(node, "messagetype").Some? && Attr(node, "messagetype").value in types
  }

  predicate FunctionsFine(types: set<string>, nodes: seq<Node>) {
    forall i :: 0 <= i < |nodes| ==> FunctionFine(types, nodes[i])
  }

  function FunctionOf(node: Node, num: ToNumber): Function
    requires ParamsFine(node) && Attr(node, "messagetype").Some?
  {
    Function(Name(node), Attr(node, "messagetype").value, ParamTable(node, num))
  }

  function Functions(types: set<string>, nodes: seq<Node>, num: ToNumber): (r: seq<Entry<Function>>)
    requires FunctionsFine(types, nodes)
    ensures |r| == |nodes|
  {
    seq(|nodes|, i requires 0 <= i < |nodes| => Entry(Name(nodes[i]), FunctionOf(nodes[i], num)))
  }

  /** The functions of one message type, in order. */
  function OfType(entries: seq<Entry<Function>>, t: string): seq<Entry<Function>> {
    if entries == [] then [] else
    var front, last := OfType(entries[..|entries| - 1], t), entries[|entries| - 1];
    if last.value.messageType == t then front + [last] else front
  }

  function TypedTables(types: set<string>, entries: seq<Entry<Function>>): map<string, map<string, Function>> {
    map t | t in types :: Table(OfType(entries, t))
  }

  // ---------- interfaces ----------

  predicate InterfaceFine(node: Node) {
    HasName(node) && Attr(node, "version").Some?
  }

  predicate InterfacesFine(nodes: seq<Node>) {
    forall i :: 0 <= i < |nodes| ==> InterfaceFine(nodes[i])
  }

  function Blank(node: Node): Interface
    requires InterfaceFine(node)
  {
    Interface(node, Attr(node, "version").value, NO_FUNCTIONS, map[], map[])
  }

  function Blanks(nodes: seq<Node>): (r: seq<Entry<Interface>>)
    requires InterfacesFine(nodes)
    ensures |r| == |nodes|
  {
    seq(|nodes|, i requires 0 <= i < |nodes| => Entry(Name(nodes[i]), Blank(nodes[i])))
  }

  /** What the body of an interface declares; `None` where reading it raises an error. */
  function EnumsOf(body: Node, num: ToNumber): Option<map<string, map<string, real>>> {
    var nodes := Named(body, "enum");
    if EnumsFine(nodes) then Some(Table(Enums(nodes, num))) else None
  }

  function StructsOf(body: Node, num: ToNumber): Option<map<string, Struct>> {
    var nodes := Named(body, "struct");
    if StructsFine(nodes) then Some(Table(Structs(nodes, num))) else None
  }

  function FunctionsOf(body: Node, num: ToNumber): Option<map<string, map<string, Function>>> {
    var nodes := Named(body, "function");
    if FunctionsFine(MESSAGE_TYPES, nodes)
    then Some(TypedTables(MESSAGE_TYPES, Functions(MESSAGE_TYPES, nodes, num))) else None
  }

  predicate BodyFine(body: Node) {
    && EnumsFine(Named(body, "enum"))
    && StructsFine(Named(body, "struct"))
    && FunctionsFine(MESSAGE_TYPES, Named(body, "function"))
  }

  /** The interface with everything its body declares. */
  function Filled(i: Interface, num: ToNumber): Interface
    requires BodyFine(i.body)
  {
    i.(enums := EnumsOf(i.body, num).value,
       structs := StructsOf(i.body, num).value,
       functions := FunctionsOf(i.body, num).value)
  }

  type Api = map<string, Interface>

  function Interfaces(root: Node): seq<Node> {
    Matching(DocumentOrder(root), Some("interface"))
  }

  ghost predicate BodiesFine(api: Api) {
    forall name :: name in api ==> BodyFine(api[name].body)
  }

  ghost predicate Loadable(root: Node) {
    InterfacesFine(Interfaces(root)) && BodiesFine(Table(Blanks(Interfaces(root))))
  }

  ghost function AllFilled(api: Api, num: ToNumber): Api
    requires BodiesFine(api)
  {
    map name | name in api :: Filled(api[name], num)
  }

  ghost function Expected(root: Node, num: ToNumber): Api
    requires Loadable(root)
  {
    AllFilled(Table(Blanks(Interfaces(root))), num)
  }

  // ---------- the loader ----------

  predicate AllElements(nodes: seq<Node>) {
    forall i :: 0 <= i < |nodes| ==> nodes[i].Element?
  }

  /** The children a loop goes through. */
  method Children(node: Node, tag: string) returns (list: seq<Node>)
    requires node.Element?
    ensures list == Named(node, tag) && AllElements(list)
  {
    var found := NodeChildren(node, Some(tag));
    list := found.value;
    forall i | 0 <= i < |list|
      ensures list[i].Element?
    {
      MatchingAreElements(node.children, Some(tag), i);
    }
  }

  /** One more entry of a table. */
  method Enter<V>(table: map<string, V>, entry: Entry<V>, ghost entries: seq<Entry<V>>) returns (r: map<string, V>)
    requires table == Table(entries)
    ensures r == Table(entries + [entry])
  {
    TableGrows(entries, entry);
    r := table[entry.name := entry.value];
  }

  method LoadResultCodes(param: Node) returns (codes: map<nat, string>)
    requires param.Element?
    ensures codes == ResultCodes(Named(param, "element"))
  {
    var elements := Children(param, "element");
    codes := map[];
    var i := 0;
    while i < |elements|
      invariant 0 <= i <= |elements|
      invariant codes == map k: nat | k < i && HasName(elements[k]) :: Name(elements[k])
    {
      var name := Attr(elements[i], "name");
      if name.Some? {
        codes := codes[i := name.value];
      }
      i := i + 1;
    }
  }

  /** `LoadParamsInFunction`: the name, if there is one, and the data. */
  method LoadParam(param: Node, num: ToNumber) returns (name: Option<string>, data: Param)
    requires param.Element?
    ensures name == Attr(param, "name") && data == ParamOf(param, num)
  {
    name := Attr(param, "name");
    var codes := None;
    if name == Some("resultCode") && Attr(param, "type") == Some("Result") {
      var found := LoadResultCodes(param);
      codes := Some(found);
    }
    data := Param(Attr(param, "type"), FlagOf(Attr(param, "mandatory"), true), FlagOf(Attr(param, "array"), false),
                  BoundsOf(param, num), codes, Attr(param, "since"), Attr(param, "deprecated"));
  }

  method LoadEntry(param: Node, num: ToNumber) returns (r: Option<Entry<Param>>)
    requires param.Element?
    ensures r.Some? <==> HasName(param)
    ensures r.Some? ==> r.value == Entry(Name(param), ParamOf(param, num))
  {
    var name, data := LoadParam(param, num);
    r := if name.Some? then Some(Entry(name.value, data)) else None;
  }

  ghost predicate ParamEntryOk(items: seq<Node>, num: ToNumber, entries: seq<Entry<Param>>, k: nat)
    requires k < |entries| && k < |items|
  {
    HasName(items[k]) && entries[k] == Entry(Name(items[k]), ParamOf(items[k], num))
  }

  ghost predicate ParamsRead(items: seq<Node>, num: ToNumber, i: nat, entries: seq<Entry<Param>>) {
    |entries| == i <= |items| && forall k :: 0 <= k < i ==> ParamEntryOk(items, num, entries, k)
  }

  lemma ParamsGrow(items: seq<Node>, num: ToNumber, i: nat, entries: seq<Entry<Param>>, entry: Entry<Param>)
    requires i < |items| && ParamsRead(items, num, i, entries)
    requires HasName(items[i]) && entry == Entry(Name(items[i]), ParamOf(items[i], num))
    ensures ParamsRead(items, num, i + 1, entries + [entry])
  {
    var longer := entries + [entry];
    forall k | 0 <= k < i + 1
      ensures ParamEntryOk(items, num, longer, k)
    {
      if k < i {
        assert ParamEntryOk(items, num, entries, k);
        assert longer[k] == entries[k];
      }
    }
  }

  lemma ParamsDone(items: seq<Node>, num: ToNumber, entries: seq<Entry<Param>>)
    requires ParamsRead(items, num, |items|, entries)
    ensures AllNamed(items) && entries == Params(items, num)
  {
    forall k | 0 <= k < |items|
      ensures HasName(items[k]) && entries[k] == Entry(Name(items[k]), ParamOf(items[k], num))
    {
      assert ParamEntryOk(items, num, entries, k);
    }
    assert entries == Params(items, num);
  }

  /** The loop over the parameters of a struct or function; entering one without a name raises an
      error. */
  method LoadParams(items: seq<Node>, num: ToNumber) returns (r: Option<map<string, Param>>)
    requires AllElements(items)
    ensures r.Some? <==> AllNamed(items)
    ensures r.Some? ==> r.value == Table(Params(items, num))
  {
    var table: map<string, Param> := map[];
    ghost var entries: seq<Entry<Param>> := [];
    for i := 0 to |items|
      invariant ParamsRead(items, num, i, entries) && table == Table(entries)
    {
      var entry := LoadEntry(items[i], num);
      if entry.None? {
        return None;
      }
      ParamsGrow(items, num, i, entries, entry.value);
      table := Enter(table, entry.value, entries);
      entries := entries + [entry.value];
    }
    ParamsDone(items, num, entries);
    r := Some(table);
  }

  /** The entries of the elements so far, and the running counter. */
  ghost predicate Counted(items: seq<Node>, own: seq<Option<real>>, i: nat, entries: seq<Entry<real>>, next: real) {
    && |entries| == i <= |items| == |own|
    && next == (if i == 0 then 1.0 else NumberOf(own, i - 1) + 1.0)
    && forall k :: 0 <= k < i ==> EntryOk(items, own, entries, k)
  }

  lemma CountedAll(items: seq<Node>, num: ToNumber, entries: seq<Entry<real>>, next: real)
    requires Counted(items, OwnValues(items, num), |items|, entries, next)
    ensures AllNamed(items) && entries == Elements(items, num)
  {
    forall k | 0 <= k < |items|
      ensures HasName(items[k]) && entries[k] == Entry(Name(items[k]), NumberOf(OwnValues(items, num), k))
    {
      assert EntryOk(items, OwnValues(items, num), entries, k);
    }
    assert entries == Elements(items, num);
  }

  /** The entry of element `i`. */
  method ReadElement(items: seq<Node>, i: nat, num: ToNumber, counter: real, ghost entries: seq<Entry<real>>)
    returns (r: Option<Entry<real>>)
    requires i < |items| && Counted(items, OwnValues(items, num), i, entries, counter)
    ensures r.Some? <==> HasName(items[i])
    ensures r.Some? ==> Counted(items, OwnValues(items, num), i + 1, entries + [r.value], r.value.value + 1.0)
  {
    var number := counter;
    var value := Attr(items[i], "value");
    if value.Some? && num(value.value).Some? {
      number := num(value.value).value;
    }
    r := if HasName(items[i]) then Some(Entry(Name(items[i]), number)) else None;
    if HasName(items[i]) {
      NumberIs(items, num, i, counter, number);
      CountedGrows(items, OwnValues(items, num), i, entries, counter, r.value);
    }
  }

  lemma NumberIs(items: seq<Node>, num: ToNumber, i: nat, counter: real, number: real)
    requires i < |items| && counter == (if i == 0 then 1.0 else NumberOf(OwnValues(items, num), i - 1) + 1.0)
    requires number == if OwnValue(items[i], num).Some? then OwnValue(items[i], num).value else counter
    ensures number == NumberOf(OwnValues(items, num), i)
  {
    assert OwnValues(items, num)[i] == OwnValue(items[i], num);
  }

  /** Entry `k` is the one of element `k`. */
  ghost predicate EntryOk(items: seq<Node>, own: seq<Option<real>>, entries: seq<Entry<real>>, k: nat)
    requires k < |entries| && k < |items| == |own|
  {
    HasName(items[k]) && entries[k] == Entry(Name(items[k]), NumberOf(own, k))
  }

  lemma CountedGrows(items: seq<Node>, own: seq<Option<real>>, i: nat, entries: seq<Entry<real>>, next: real,
                     entry: Entry<real>)
    requires i < |items| && Counted(items, own, i, entries, next) && HasName(items[i])
    requires entry == Entry(Name(items[i]), NumberOf(own, i))
    ensures Counted(items, own, i + 1, entries + [entry], entry.value + 1.0)
  {
    var longer := entries + [entry];
    forall k | 0 <= k < i + 1
      ensures EntryOk(items, own, longer, k)
    {
      if k < i {
        assert EntryOk(items, own, entries, k);
        assert longer[k] == entries[k];
      }
    }
  }

  /** The inner loop of `LoadEnums` with its running counter. */
  method LoadElements(items: seq<Node>, num: ToNumber) returns (r: Option<map<string, real>>)
    ensures r.Some? <==> AllNamed(items)
    ensures r.Some? ==> r.value == Table(Elements(items, num))
  {
    var table: map<string, real> := map[];
    ghost var entries: seq<Entry<real>> := [];
    var next := 1.0;
    for i := 0 to |items|
      invariant Counted(items, OwnValues(items, num), i, entries, next) && table == Table(entries)
    {
      var entry := ReadElement(items, i, num, next, entries);
      if entry.None? {
        return None;
      }
      table := Enter(table, entry.value, entries);
      entries, next := entries + [entry.value], entry.value.value + 1.0;
    }
    CountedAll(items, num, entries, next);
    r := Some(table);
  }

  method LoadEnum(node: Node, num: ToNumber) returns (r: Option<map<string, real>>)
    requires node.Element?
    ensures r.Some? <==> EnumFine(node)
    ensures r.Some? ==> r.value == EnumOf(node, num)
  {
    if !HasName(node) {
      return None;
    }
    var elements := Children(node, "element");
    r := LoadElements(elements, num);
  }

  method EnterEnums(items: seq<Node>, num: ToNumber) returns (r: Option<map<string, map<string, real>>>)
    requires AllElements(items)
    ensures r.Some? <==> EnumsFine(items)
    ensures r.Some? ==> r.value == Table(Enums(items, num))
  {
    var table: map<string, map<string, real>> := map[];
    ghost var entries: seq<Entry<map<string, real>>> := [];
    for i := 0 to |items|
      invariant |entries| == i && table == Table(entries)
      invariant forall k :: 0 <= k < i ==>
                  EnumFine(items[k]) && entries[k] == Entry(Name(items[k]), EnumOf(items[k], num))
    {
      var entry := LoadEnum(items[i], num);
      if entry.None? {
        return None;
      }
      table := Enter(table, Entry(Name(items[i]), entry.value), entries);
      entries := entries + [Entry(Name(items[i]), entry.value)];
    }
    assert entries == Enums(items, num);
    r := Some(table);
  }

  method LoadStruct(node: Node, num: ToNumber) returns (r: Option<Struct>)
    requires node.Element?
    ensures r.Some? <==> ParamsFine(node)
    ensures r.Some? ==> r.value == StructOf(node, num)
  {
    var items := Children(node, "param");
    var params := LoadParams(items, num);
    if params.None? || !HasName(node) {
      return None;
    }
    r := Some(Struct(Name(node), params.value));
  }

  method EnterStructs(items: seq<Node>, num: ToNumber) returns (r: Option<map<string, Struct>>)
    requires AllElements(items)
    ensures r.Some? <==> StructsFine(items)
    ensures r.Some? ==> r.value == Table(Structs(items, num))
  {
    var table: map<string, Struct> := map[];
    ghost var entries: seq<Entry<Struct>> := [];
    for i := 0 to |items|
      invariant |entries| == i && table == Table(entries)
      invariant forall k :: 0 <= k < i ==>
                  ParamsFine(items[k]) && entries[k] == Entry(Name(items[k]), StructOf(items[k], num))
    {
      var entry := LoadStruct(items[i], num);
      if entry.None? {
        return None;
      }
      table := Enter(table, Entry(entry.value.name, entry.value), entries);
      entries := entries + [Entry(entry.value.name, entry.value)];
    }
    assert entries == Structs(items, num);
    r := Some(table);
  }

  method LoadFunction(types: set<string>, node: Node, num: ToNumber) returns (r: Option<Function>)
    requires node.Element?
    ensures r.Some? <==> FunctionFine(types, node)
    ensures r.Some? ==> r.value == FunctionOf(node, num)
  {
    var messageType := Attr(node, "messagetype");
    var items := Children(node, "param");
    var params := LoadParams(items, num);
    if params.None? || messageType.None? || messageType.value !in types || !HasName(node) {
      return None;
    }
    r := Some(Function(Name(node), messageType.value, params.value));
  }

  /** A function goes into the table of its own message type only. */
  lemma FunctionEntered(types: set<string>, entries: seq<Entry<Function>>, entry: Entry<Function>)
    requires entry.value.messageType in types
    ensures var t, tables := entry.value.messageType, TypedTables(types, entries);
            TypedTables(types, entries + [entry]) == tables[t := tables[t][entry.name := entry.value]]
  {
    assert (entries + [entry])[..|entries|] == entries;
    TableGrows(OfType(entries, entry.value.messageType), entry);
  }

  lemma NoneEntered(types: set<string>)
    ensures TypedTables(types, []) == map t | t in types :: map[]
  {
  }

  method EnterFunction(types: set<string>, tables: map<string, map<string, Function>>, f: Function,
                       ghost entries: seq<Entry<Function>>)
    returns (r: map<string, map<string, Function>>)
    requires tables == TypedTables(types, entries) && f.messageType in types
    ensures r == TypedTables(types, entries + [Entry(f.name, f)])
  {
    FunctionEntered(types, entries, Entry(f.name, f));
    r := tables[f.messageType := tables[f.messageType][f.name := f]];
  }

  method EnterFunctions(types: set<string>, items: seq<Node>, num: ToNumber)
    returns (r: Option<map<string, map<string, Function>>>)
    requires AllElements(items)
    ensures r.Some? <==> FunctionsFine(types, items)
    ensures r.Some? ==> r.value == TypedTables(types, Functions(types, items, num))
  {
    var tables: map<string, map<string, Function>> := map t | t in types :: map[];
    NoneEntered(types);
    ghost var entries: seq<Entry<Function>> := [];
    for i := 0 to |items|
      invariant |entries| == i && tables == TypedTables(types, entries)
      invariant forall k :: 0 <= k < i ==>
                  FunctionFine(types, items[k]) && entries[k] == Entry(Name(items[k]), FunctionOf(items[k], num))
    {
      var entry := LoadFunction(types, items[i], num);
      if entry.None? {
        return None;
      }
      tables := EnterFunction(types, tables, entry.value, entries);
      entries := entries + [Entry(entry.value.name, entry.value)];
    }
    assert entries == Functions(types, items, num);
    r := Some(tables);
  }

  class ApiTable {
    var interfaces: Api

    constructor ()
      ensures interfaces == map[]
    {
      interfaces := map[];
    }

    ghost predicate Readable()
      reads this
    {
      forall name :: name in interfaces ==> interfaces[name].body.Element?
    }

    method LoadInterfaces(list: seq<Node>) returns (ok: bool)
      requires interfaces == map[]
      modifies this
      ensures ok <==> InterfacesFine(list)
      ensures ok ==> interfaces == Table(Blanks(list)) && Readable()
    {
      ghost var entries: seq<Entry<Interface>> := [];
      for i := 0 to |list|
        invariant |entries| == i && interfaces == Table(entries) && Readable()
        invariant forall k :: 0 <= k < i ==>
                    InterfaceFine(list[k]) && entries[k] == Entry(Name(list[k]), Blank(list[k]))
      {
        if !HasName(list[i]) || Attr(list[i], "version").None? {
          return false;
        }
        TableGrows(entries, Entry(Name(list[i]), Blank(list[i])));
        interfaces := interfaces[Name(list[i]) := Blank(list[i])];
        entries := entries + [Entry(Name(list[i]), Blank(list[i]))];
      }
      assert entries == Blanks(list);
      ok := true;
    }

    /** `LoadEnums`. The interfaces are visited in an arbitrary order, as `pairs` does. */
    method LoadEnums(num: ToNumber) returns (ok: bool)
      requires Readable()
      modifies this
      ensures Readable()
      ensures interfaces.Keys == old(interfaces).Keys
      ensures ok <==> forall name :: name in old(interfaces) ==> EnumsOf(old(interfaces)[name].body, num).Some?
      ensures ok ==> forall name :: name in interfaces ==>
                interfaces[name] == old(interfaces)[name].(enums := EnumsOf(old(interfaces)[name].body, num).value)
    {
      var todo := interfaces.Keys;
      while todo != {}
        invariant todo <= interfaces.Keys == old(interfaces).Keys && Readable()
        invariant forall name :: name in todo ==> interfaces[name] == old(interfaces)[name]
        invariant forall name :: name in interfaces && name !in todo ==>
                    var found := EnumsOf(old(interfaces)[name].body, num);
                    found.Some? && interfaces[name] == old(interfaces)[name].(enums := found.value)
      {
        var first :| first in todo;
        var items := Children(interfaces[first].body, "enum");
        var table := EnterEnums(items, num);
        if table.None? {
          return false;
        }
        interfaces := interfaces[first := interfaces[first].(enums := table.value)];
        todo := todo - {first};
      }
      ok := true;
    }

    /** `LoadStructs`, likewise. */
    method LoadStructs(num: ToNumber) returns (ok: bool)
      requires Readable()
      modifies this
      ensures Readable()
      ensures interfaces.Keys == old(interfaces).Keys
      ensures ok <==> forall name :: name in old(interfaces) ==> StructsOf(old(interfaces)[name].body, num).Some?
      ensures ok ==> forall name :: name in interfaces ==>
                interfaces[name] == old(interfaces)[name].(structs := StructsOf(old(interfaces)[name].body, num).value)
    {
      var todo := interfaces.Keys;
      while todo != {}
        invariant todo <= interfaces.Keys == old(interfaces).Keys && Readable()
        invariant forall name :: name in todo ==> interfaces[name] == old(interfaces)[name]
        invariant forall name :: name in interfaces && name !in todo ==>
                    var found := StructsOf(old(interfaces)[name].body, num);
                    found.Some? && interfaces[name] == old(interfaces)[name].(structs := found.value)
      {
        var first :| first in todo;
        var items := Children(interfaces[first].body, "struct");
        var table := EnterStructs(items, num);
        if table.None? {
          return false;
        }
        interfaces := interfaces[first := interfaces[first].(structs := table.value)];
        todo := todo - {first};
      }
      ok := true;
    }

    /** `LoadFunction`, likewise. */
    method LoadFunctions(num: ToNumber) returns (ok: bool)
      requires Readable()
      modifies this
      ensures Readable()
      ensures interfaces.Keys == old(interfaces).Keys
      ensures ok <==> forall name :: name in old(interfaces) ==> FunctionsOf(old(interfaces)[name].body, num).Some?
      ensures ok ==> forall name :: name in interfaces ==>
                interfaces[name]
                == old(interfaces)[name].(functions := FunctionsOf(old(interfaces)[name].body, num).value)
    {
      var todo := interfaces.Keys;
      while todo != {}
        invariant todo <= interfaces.Keys == old(interfaces).Keys && Readable()
        invariant forall name :: name in todo ==> interfaces[name] == old(interfaces)[name]
        invariant forall name :: name in interfaces && name !in todo ==>
                    var found := FunctionsOf(old(interfaces)[name].body, num);
                    found.Some? && interfaces[name] == old(interfaces)[name].(functions := found.value)
      {
        var first :| first in todo;
        var items := Children(interfaces[first].body, "function");
        var table := EnterFunctions(MESSAGE_TYPES, items, num);
        if table.None? {
          return false;
        }
        interfaces := interfaces[first := interfaces[first].(functions := table.value)];
        todo := todo - {first};
      }
      ok := true;
    }
  }

  /** `init` on the document read (`None`: there is none): it raises an error exactly when the
      document is not loadable, and otherwise returns the one table the document determines, in
      whatever order the interfaces were visited. */
  method Init(doc: Option<Node>, num: ToNumber) returns (api: Option<Api>)
    ensures api.Some? <==> doc.Some? && Loadable(doc.value)
    ensures api.Some? ==> api.value == Expected(doc.value, num)
  {
    if doc.None? {
      return None;
    }
    var list := Interfaces(doc.value);
    var table := new ApiTable();
    var ok := table.LoadInterfaces(list);
    if !ok {
      return None;
    }
    ghost var blank := table.interfaces;
    ok := table.LoadEnums(num);
    if !ok {
      return None;
    }
    ok := table.LoadStructs(num);
    if !ok {
      return None;
    }
    ok := table.LoadFunctions(num);
    if !ok {
      return None;
    }
    AllPassed(blank, num, table.interfaces);
    api := Some(table.interfaces);
  }

  lemma AllPassed(blank: Api, num: ToNumber, api: Api)
    requires api.Keys == blank.Keys
    requires forall name :: name in blank ==> Passed(blank[name], num, api[name])
    ensures BodiesFine(blank) && api == AllFilled(blank, num)
  {
    forall name | name in blank
      ensures BodyFine(blank[name].body) && api[name] == Filled(blank[name], num)
    {
      assert Passed(blank[name], num, api[name]);
    }
  }

  /** What the three passes make of one interface. */
  ghost predicate Passed(i: Interface, num: ToNumber, result: Interface) {
    && EnumsOf(i.body, num).Some? && StructsOf(i.body, num).Some? && FunctionsOf(i.body, num).Some?
    && result == i.(enums := EnumsOf(i.body, num).value, structs := StructsOf(i.body, num).value,
                    functions := FunctionsOf(i.body, num).value)
  }

  // ---------- what the table says about the document ----------

  /** The search the table stands for. Interfaces: the last one of a name in document order. */
  lemma InterfaceSearch(root: Node, num: ToNumber)
    requires Loadable(root)
    ensures var list, api := Blanks(Interfaces(root)), Expected(root, num);
            && (forall name :: name in api <==> exists i :: 0 <= i < |list| && list[i].name == name)
            && (forall name, i :: IsLast(list, name, i) ==>
                  BodyFine(list[i].value.body) && name in api && api[name] == Filled(list[i].value, num))
  {
    TableIsLastWins(Blanks(Interfaces(root)));
  }

  /** Within an interface, enums, structs and, for each message type, functions: the last child of
      the kind with the name. */
  lemma BodySearch(i: Interface, num: ToNumber, t: string)
    requires BodyFine(i.body) && t in MESSAGE_TYPES
    ensures var filled := Filled(i, num);
            && LastWins(filled.enums, Enums(Named(i.body, "enum"), num))
            && LastWins(filled.structs, Structs(Named(i.body, "struct"), num))
            && t in filled.functions
            && LastWins(filled.functions[t], OfType(Functions(MESSAGE_TYPES, Named(i.body, "function"), num), t))
            && filled.body == i.body && filled.version == i.version
  {
    TableIsLastWins(Enums(Named(i.body, "enum"), num));
    TableIsLastWins(Structs(Named(i.body, "struct"), num));
    TableIsLastWins(OfType(Functions(MESSAGE_TYPES, Named(i.body, "function"), num), t));
  }

  /** Within an enum: the last element of the name, with the number of its place. */
  lemma EnumSearch(node: Node, num: ToNumber)
    requires EnumFine(node)
    ensures LastWins(EnumOf(node, num), Elements(Named(node, "element"), num))
  {
    TableIsLastWins(Elements(Named(node, "element"), num));
  }

  lemma ParamSearch(node: Node, num: ToNumber)
    requires ParamsFine(node)
    ensures LastWins(ParamTable(node, num), Params(Named(node, "param"), num))
  {
    TableIsLastWins(Params(Named(node, "param"), num));
  }

  /** A malformed body of an interface that a later one of the same name replaces does no harm:
      only the bodies that stay are read. */
  lemma LoadableIff(root: Node)
    ensures var list := Interfaces(root);
            Loadable(root) <==>
              InterfacesFine(list)
              && forall name, i :: IsLast(Blanks(list), name, i) ==> BodyFine(list[i])
  {
    if InterfacesFine(Interfaces(root)) {
      var entries := Blanks(Interfaces(root));
      TableIsLastWins(entries);
      forall name | name in Table(entries)
        ensures exists k :: IsLast(entries, name, k)
      {
        var i :| 0 <= i < |entries| && entries[i].name == name;
        var k := LastExists(entries, i);
      }
    }
  }

}
