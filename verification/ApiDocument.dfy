/** What the loaded API says about the document, by tags, attributes and children alone: the last
    interface, enum, struct, function, parameter or element of a name is the one that counts. */
module ApiDocument {
  import opened Common
  import opened Xml
  import opened ApiLoader

  predicate IsNamed(node: Node, tag: string, name: string) {
    node.Element? && node.tag == tag && "name" in node.attrs && node.attrs["name"] == name
  }

  /** Node `k` is the last one with that tag and name. */
  ghost predicate LastNamed(nodes: seq<Node>, tag: string, name: string, k: nat) {
    && k < |nodes| && IsNamed(nodes[k], tag, name)
    && forall j :: k < j < |nodes| ==> !IsNamed(nodes[j], tag, name)
  }

  ghost predicate NamesOf<V(!new)>(entries: seq<Entry<V>>, list: seq<Node>) {
    |entries| == |list| && AllNamed(list) && forall i :: 0 <= i < |list| ==> entries[i].name == Name(list[i])
  }

  /** The last node of a name is the last entry of that name. */
  lemma LastEntry<V(!new)>(nodes: seq<Node>, tag: string, name: string, k: nat, entries: seq<Entry<V>>) returns (i: nat)
    requires LastNamed(nodes, tag, name, k) && NamesOf(entries, Matching(nodes, Some(tag)))
    ensures i < |entries| && Matching(nodes, Some(tag))[i] == nodes[k] && IsLast(entries, name, i)
  {
    var list, places := Matching(nodes, Some(tag)), Places(nodes, Some(tag));
    MatchingIsDenseAndOrdered(nodes, Some(tag));
    assert Matches(nodes[k], Some(tag));
    i :| 0 <= i < |places| && places[i] == k;
    forall j | i < j < |entries|
      ensures entries[j].name != name
    {
      assert places[j] in places && Matches(nodes[places[j]], Some(tag));
      assert !IsNamed(nodes[places[j]], tag, name);
    }
  }

  lemma Found<V(!new)>(nodes: seq<Node>, tag: string, name: string, k: nat, entries: seq<Entry<V>>) returns (i: nat)
    requires LastNamed(nodes, tag, name, k) && NamesOf(entries, Matching(nodes, Some(tag)))
    ensures i < |entries| && Matching(nodes, Some(tag))[i] == nodes[k]
    ensures name in Table(entries) && Table(entries)[name] == entries[i].value
  {
    i := LastEntry(nodes, tag, name, k, entries);
    TableIsLastWins(entries);
  }

  // ---------------------------------------------------------------- parameters

  /** What the attributes of a parameter say. */
  ghost predicate ParamIs(p: Node, num: ToNumber, data: Param)
    requires p.Element?
  {
    && data.ptype == (if "type" in p.attrs then Some(p.attrs["type"]) else None)
    && data.mandatory == (if "mandatory" in p.attrs then Given(p.attrs["mandatory"]) else Default(true))
    && data.isArray == (if "array" in p.attrs then Given(p.attrs["array"]) else Default(false))
    && data.since == (if "since" in p.attrs then Some(p.attrs["since"]) else None)
    && data.deprecated == (if "deprecated" in p.attrs then Some(p.attrs["deprecated"]) else None)
    && (forall b :: b in data.bounds <==> b in p.attrs && IsBound(b) && num(p.attrs[b]).Some?)
    && (forall b :: b in data.bounds && b in p.attrs ==> Some(data.bounds[b]) == num(p.attrs[b]))
    && (data.resultCodes.Some? <==>
          && "name" in p.attrs && p.attrs["name"] == "resultCode"
          && "type" in p.attrs && p.attrs["type"] == "Result")
    && (data.resultCodes.Some? ==> CodesAre(Matching(p.children, Some("element")), data.resultCodes.value))
  }

  predicate IsBound(b: string) {
    b in ["minlength", "maxlength", "minsize", "maxsize", "minvalue", "maxvalue", "defvalue"]
  }

  /** Code `i` is the name of element `i`, if it has one. */
  ghost predicate CodesAre(elements: seq<Node>, codes: map<nat, string>) {
    forall i: nat ::
      && (i in codes <==> i < |elements| && elements[i].Element? && "name" in elements[i].attrs)
      && (i in codes && i < |elements| && elements[i].Element? && "name" in elements[i].attrs ==>
            codes[i] == elements[i].attrs["name"])
  }

  lemma ParamAnswers(p: Node, num: ToNumber)
    requires p.Element?
    ensures ParamIs(p, num, ParamOf(p, num))
  {
  }

  /** The last parameter of a name in a struct or function. */
  lemma ParamFound(node: Node, num: ToNumber, name: string, k: nat)
    requires node.Element? && ParamsFine(node) && LastNamed(node.children, "param", name, k)
    ensures var params := ParamTable(node, num);
            name in params && ParamIs(node.children[k], num, params[name])
  {
    var i := Found(node.children, "param", name, k, Params(Named(node, "param"), num));
    ParamAnswers(node.children[k], num);
  }

  // ---------------------------------------------------------------- within an interface

  /** The last enum of a name, and in it the last element of a name: its number is the value it gives
      itself, or 1 for a first element without one, or one more than that of the element before it. */
  lemma EnumFound(i: Interface, num: ToNumber, name: string, k: nat, element: string, m: nat)
    requires i.body.Element? && BodyFine(i.body) && LastNamed(i.body.children, "enum", name, k)
    requires LastNamed(i.body.children[k].children, "element", element, m)
    ensures var enums, node := Filled(i, num).enums, i.body.children[k].children[m];
            && name in enums && element in enums[name]
            && ("value" in node.attrs && num(node.attrs["value"]).Some? ==>
                  Some(enums[name][element]) == num(node.attrs["value"]))
            && exists at: nat ::
                 && at < |Matching(i.body.children[k].children, Some("element"))|
                 && Matching(i.body.children[k].children, Some("element"))[at] == node
                 && enums[name][element] == NumberOf(OwnValues(Named(i.body.children[k], "element"), num), at)
  {
    var node := i.body.children[k];
    var e := Found(i.body.children, "enum", name, k, Enums(Named(i.body, "enum"), num));
    assert EnumFine(node);
    var at := Found(node.children, "element", element, m, Elements(Named(node, "element"), num));
  }

  /** The last struct of a name, with its parameters. */
  lemma StructFound(i: Interface, num: ToNumber, name: string, k: nat, param: string, m: nat)
    requires i.body.Element? && BodyFine(i.body) && LastNamed(i.body.children, "struct", name, k)
    requires LastNamed(i.body.children[k].children, "param", param, m)
    ensures var structs := Filled(i, num).structs;
            && name in structs && structs[name].name == name && param in structs[name].params
            && ParamIs(i.body.children[k].children[m], num, structs[name].params[param])
  {
    var e := Found(i.body.children, "struct", name, k, Structs(Named(i.body, "struct"), num));
    assert ParamsFine(i.body.children[k]);
    ParamFound(i.body.children[k], num, param, m);
  }

  predicate IsFunction(node: Node, messageType: string, name: string) {
    IsNamed(node, "function", name) && "messagetype" in node.attrs && node.attrs["messagetype"] == messageType
  }

  ghost predicate LastFunction(nodes: seq<Node>, messageType: string, name: string, k: nat) {
    && k < |nodes| && IsFunction(nodes[k], messageType, name)
    && forall j :: k < j < |nodes| ==> !IsFunction(nodes[j], messageType, name)
  }

  /** The last entry of a type and name is the one its table has. */
  lemma {:induction false} TypedFound(entries: seq<Entry<Function>>, t: string, name: string, i: nat)
    requires i < |entries| && entries[i].name == name && entries[i].value.messageType == t
    requires forall j :: i < j < |entries| ==> entries[j].name != name || entries[j].value.messageType != t
    ensures name in Table(OfType(entries, t)) && Table(OfType(entries, t))[name] == entries[i].value
  {
    var n := |entries| - 1;
    if entries[n].value.messageType == t {
      TableGrows(OfType(entries[..n], t), entries[n]);
    }
    if i < n {
      TypedFound(entries[..n], t, name, i);
    }
  }

  lemma FunctionEntry(nodes: seq<Node>, num: ToNumber, t: string, name: string, k: nat) returns (at: nat)
    requires FunctionsFine(MESSAGE_TYPES, Matching(nodes, Some("function"))) && LastFunction(nodes, t, name, k)
    ensures var list := Matching(nodes, Some("function"));
            var entries := Functions(MESSAGE_TYPES, list, num);
            && at < |list| && list[at] == nodes[k]
            && entries[at].name == name && entries[at].value.messageType == t
            && forall j :: at < j < |entries| ==> entries[j].name != name || entries[j].value.messageType != t
  {
    var tag := Some("function");
    var list, places := Matching(nodes, tag), Places(nodes, tag);
    MatchingIsDenseAndOrdered(nodes, tag);
    assert Matches(nodes[k], tag);
    at :| 0 <= at < |places| && places[at] == k;
    forall j | at < j < |list|
      ensures FunctionFine(MESSAGE_TYPES, list[j]) && (Name(list[j]) != name || Attr(list[j], "messagetype").value != t)
    {
      assert places[j] in places && Matches(nodes[places[j]], tag);
      assert !IsFunction(nodes[places[j]], t, name);
    }
  }

  /** The last function of a message type and name, with its parameters; functions of other types do not
      matter. */
  lemma FunctionFound(i: Interface, num: ToNumber, t: string, name: string, k: nat, param: string, m: nat)
    requires i.body.Element? && BodyFine(i.body) && LastFunction(i.body.children, t, name, k)
    requires LastNamed(i.body.children[k].children, "param", param, m)
    ensures t == "request" || t == "response" || t == "notification"
    ensures var functions := Filled(i, num).functions;
            && t in functions && name in functions[t]
            && functions[t][name].name == name && functions[t][name].messageType == t
            && param in functions[t][name].params
            && ParamIs(i.body.children[k].children[m], num, functions[t][name].params[param])
  {
    var at := FunctionEntry(i.body.children, num, t, name, k);
    assert FunctionFine(MESSAGE_TYPES, i.body.children[k]);
    TypedFound(Functions(MESSAGE_TYPES, Named(i.body, "function"), num), t, name, at);
    ParamFound(i.body.children[k], num, param, m);
  }

  // ---------------------------------------------------------------- the document

  /** The last interface of a name in document order is loaded with everything its body declares. */
  lemma InterfaceFound(root: Node, num: ToNumber, name: string, k: nat)
    requires Loadable(root) && LastNamed(DocumentOrder(root), "interface", name, k)
    ensures var node, api := DocumentOrder(root)[k], Expected(root, num);
            && "version" in node.attrs && BodyFine(node) && name in api
            && api[name].body == node && api[name].version == node.attrs["version"]
            && exists i: Interface :: i.body == node && api[name] == Filled(i, num)
  {
    var i := Found(DocumentOrder(root), "interface", name, k, Blanks(Interfaces(root)));
  }

  /** From the root of the document to an element of an enum. */
  lemma EnumOfDocument(root: Node, num: ToNumber, name: string, k: nat, enum: string, e: nat, element: string, m: nat)
    requires Loadable(root) && LastNamed(DocumentOrder(root), "interface", name, k)
    requires LastNamed(DocumentOrder(root)[k].children, "enum", enum, e)
    requires LastNamed(DocumentOrder(root)[k].children[e].children, "element", element, m)
    ensures var api, node := Expected(root, num), DocumentOrder(root)[k].children[e].children[m];
            && name in api && enum in api[name].enums && element in api[name].enums[enum]
            && ("value" in node.attrs && num(node.attrs["value"]).Some? ==>
                  Some(api[name].enums[enum][element]) == num(node.attrs["value"]))
  {
    InterfaceFound(root, num, name, k);
    var i: Interface :| i.body == DocumentOrder(root)[k] && Expected(root, num)[name] == Filled(i, num);
    EnumFound(i, num, enum, e, element, m);
  }

  /** To a parameter of a struct. */
  lemma StructOfDocument(root: Node, num: ToNumber, name: string, k: nat, struct: string, e: nat, param: string, m: nat)
    requires Loadable(root) && LastNamed(DocumentOrder(root), "interface", name, k)
    requires LastNamed(DocumentOrder(root)[k].children, "struct", struct, e)
    requires LastNamed(DocumentOrder(root)[k].children[e].children, "param", param, m)
    ensures var api, node := Expected(root, num), DocumentOrder(root)[k].children[e].children[m];
            && name in api && struct in api[name].structs && param in api[name].structs[struct].params
            && ParamIs(node, num, api[name].structs[struct].params[param])
  {
    InterfaceFound(root, num, name, k);
    var i: Interface :| i.body == DocumentOrder(root)[k] && Expected(root, num)[name] == Filled(i, num);
    StructFound(i, num, struct, e, param, m);
  }

  /** To a parameter of a function of a message type. */
  lemma FunctionOfDocument(root: Node, num: ToNumber, name: string, k: nat, t: string, f: string, e: nat, param: string,
                           m: nat)
    requires Loadable(root) && LastNamed(DocumentOrder(root), "interface", name, k)
    requires LastFunction(DocumentOrder(root)[k].children, t, f, e)
    requires LastNamed(DocumentOrder(root)[k].children[e].children, "param", param, m)
    ensures var api, node := Expected(root, num), DocumentOrder(root)[k].children[e].children[m];
            && name in api && t in api[name].functions && f in api[name].functions[t]
            && param in api[name].functions[t][f].params
            && ParamIs(node, num, api[name].functions[t][f].params[param])
  {
    InterfaceFound(root, num, name, k);
    var i: Interface :| i.body == DocumentOrder(root)[k] && Expected(root, num)[name] == Filled(i, num);
    FunctionFound(i, num, t, f, e, param, m);
  }

  // ---------------------------------------------------------------- which bodies are well-formed

  lemma ForAllMatching(nodes: seq<Node>, tag: string, fine: Node -> bool)
    ensures (forall i :: 0 <= i < |Matching(nodes, Some(tag))| ==> fine(Matching(nodes, Some(tag))[i]))
            <==> forall k :: 0 <= k < |nodes| && nodes[k].Element? && nodes[k].tag == tag ==> fine(nodes[k])
  {
    var list, places := Matching(nodes, Some(tag)), Places(nodes, Some(tag));
    MatchingIsDenseAndOrdered(nodes, Some(tag));
    if forall i :: 0 <= i < |list| ==> fine(list[i]) {
      forall k | 0 <= k < |nodes| && nodes[k].Element? && nodes[k].tag == tag
        ensures fine(nodes[k])
      {
        assert Matches(nodes[k], Some(tag));
        var i :| 0 <= i < |places| && places[i] == k;
        assert fine(list[i]);
      }
    } else {
      var i :| 0 <= i < |list| && !fine(list[i]);
      assert places[i] in places && Matches(nodes[places[i]], Some(tag));
    }
  }

  /** All children with that tag have a name. */
  predicate ChildrenNamed(node: Node, tag: string)
    requires node.Element?
  {
    forall k :: 0 <= k < |node.children| && node.children[k].Element? && node.children[k].tag == tag ==>
      "name" in node.children[k].attrs
  }

  predicate NamedWith(node: Node, tag: string) {
    node.Element? && "name" in node.attrs && ChildrenNamed(node, tag)
  }

  lemma FineIff(node: Node)
    requires node.Element?
    ensures EnumFine(node) <==> NamedWith(node, "element")
    ensures ParamsFine(node) <==> NamedWith(node, "param")
  {
    ForAllMatching(node.children, "element", HasName);
    ForAllMatching(node.children, "param", HasName);
  }

  predicate FunctionNode(node: Node) {
    && NamedWith(node, "param") && "messagetype" in node.attrs
    && node.attrs["messagetype"] in ["request", "response", "notification"]
  }

  /** A body is well-formed exactly when every enum, struct and function has a name, and so have their
      elements and parameters, and every function has one of the three message types. */
  lemma BodyFineIff(body: Node)
    requires body.Element?
    ensures BodyFine(body) <==>
            forall k :: 0 <= k < |body.children| && body.children[k].Element? ==>
              var node := body.children[k];
              && (node.tag == "enum" ==> NamedWith(node, "element"))
              && (node.tag == "struct" ==> NamedWith(node, "param"))
              && (node.tag == "function" ==> FunctionNode(node))
  {
    ForAllMatching(body.children, "enum", EnumFine);
    ForAllMatching(body.children, "struct", ParamsFine);
    ForAllMatching(body.children, "function", node => FunctionFine(MESSAGE_TYPES, node));
    forall k | 0 <= k < |body.children| && body.children[k].Element?
      ensures EnumFine(body.children[k]) <==> NamedWith(body.children[k], "element")
      ensures ParamsFine(body.children[k]) <==> NamedWith(body.children[k], "param")
      ensures FunctionFine(MESSAGE_TYPES, body.children[k]) <==> FunctionNode(body.children[k])
    {
      FineIff(body.children[k]);
    }
  }
}
