/**
  Reading an attribute out of a UVE, contrail-opserver/alarmgen.py: `_get_uve_attribute` collects
  the values that a dotted path reaches, each with the route taken, and
  `_get_attribute_from_uve_path` later reads values back out of a route.
 */
module UveAttributes {
  import opened Options

  /** A string, with what json.loads makes of it: nothing if it is not JSON. */
  datatype Text = Text(chars: string, parsed: Option<Json>)

  datatype Json = Null | Bool(b: bool) | Num(n: real) | Str(text: Text) | List(items: seq<Json>) | Obj(fields: seq<Field>)
  datatype Field = Field(key: Text, value: Json)

  /** One entry of a route: a dictionary with a single key. */
  datatype Node = Node(name: Text, value: Json)

  /** What a path reaches: one value, a list of such results, or (Python's) None. */
  datatype Operand = Leaf(value: Json, path: seq<Node>, found: bool) | Many(items: seq<Operand>) | Nothing

  const MARKER := Text("__list_element__", None)

  predicate IsWildcard(a: Text) { a.chars == "*" }
  predicate IsKey(a: Text) { a.chars == "__key" }
  predicate IsValue(a: Text) { a.chars == "__value" }

  /** dict.get: None for a missing key. */
  function Find(fields: seq<Field>, name: Text): Json {
    if fields == [] then Null
    else if fields[0].key.chars == name.chars then fields[0].value
    else Find(fields[1..], name)
  }

  /** The value has several parts for the path to go on with: the elements of a list, the entries of a dictionary. */
  predicate Branches(j: Json, attrs: seq<Text>) {
    attrs != [] && (j.List? || (j.Obj? && (IsWildcard(attrs[0]) || IsValue(attrs[0]) || IsKey(attrs[0]))))
  }

  function Width(j: Json): nat {
    if j.List? then |j.items| else if j.Obj? then |j.fields| else 0
  }

  /** Part `i`: the entry it adds to the route, what the path goes on with, and the attributes left. */
  function PartNode(j: Json, i: nat): Node
    requires (j.List? || j.Obj?) && i < Width(j)
  {
    if j.List? then Node(MARKER, j.items[i]) else Node(j.fields[i].key, j.fields[i].value)
  }

  function PartValue(j: Json, attrs: seq<Text>, i: nat): Json
    requires Branches(j, attrs) && i < Width(j)
  {
    if j.List? then j.items[i] else if IsKey(attrs[0]) then Str(j.fields[i].key) else j.fields[i].value
  }

  function AttrsLeft(j: Json, attrs: seq<Text>): seq<Text>
    requires Branches(j, attrs)
  {
    if j.List? then attrs else attrs[1..]
  }

  /** _get_uve_attribute */
  function Get(j: Json, attrs: seq<Text>, path: seq<Node>): Operand
    decreases |attrs|, j, Width(j) + 1
  {
    if j == Null || attrs == [] then Leaf(j, path, attrs == [])
    else if Branches(j, attrs) then Many(GetEach(j, attrs, path, Width(j)))
    else if j.Obj? then
      var v := Find(j.fields, attrs[0]);
      Get(v, attrs[1..], path + [Node(attrs[0], v)])
    else if j.Str? then
      if j.text.parsed.None? then Leaf(Null, path, false) else Get(j.text.parsed.value, attrs, path)
    else Nothing
  }

  /** The list comprehensions of _get_uve_attribute. */
  function GetEach(j: Json, attrs: seq<Text>, path: seq<Node>, n: nat): (r: seq<Operand>)
    requires Branches(j, attrs) && n <= Width(j)
    ensures |r| == n
    ensures forall i :: 0 <= i < n ==> r[i] == Get(PartValue(j, attrs, i), AttrsLeft(j, attrs), path + [PartNode(j, i)])
    decreases |attrs|, j, n
  {
    if n == 0 then []
    else GetEach(j, attrs, path, n - 1) +
         [Get(PartValue(j, attrs, n - 1), AttrsLeft(j, attrs), path + [PartNode(j, n - 1)])]
  }

  // ----- Reading a route

  /** The last loop of _get_attribute_from_uve_path. */
  function Descend(v: Json, attrs: seq<Text>): Json
    decreases |attrs|
  {
    if attrs == [] then v else if v.Obj? then Descend(Find(v.fields, attrs[0]), attrs[1..]) else Null
  }

  function Finish(pnode: Option<Node>, attrs: seq<Text>): Json {
    if pnode.None? then Null else Descend(pnode.value.value, attrs)
  }

  /** The rest of the main loop of _get_attribute_from_uve_path, with `pnode` the last entry passed. */
  function Walk(attrs: seq<Text>, path: seq<Node>, pnode: Option<Node>): Json
    decreases |path|, 0
  {
    if attrs == [] || path == [] then Finish(pnode, attrs)
    else if IsKey(attrs[0]) then Str(path[0].name)
    else if IsValue(attrs[0]) then path[0].value
    else if !IsWildcard(attrs[0]) && attrs[0].chars != path[0].name.chars then Finish(pnode, attrs)
    else Absorb(attrs[1..], path[1..], Some(path[0]))
  }

  /** Passes an entry for a list element along with the key before it. */
  function Absorb(attrs: seq<Text>, path: seq<Node>, pnode: Option<Node>): Json
    decreases |path|, 1
  {
    if path != [] && path[0].name.chars == MARKER.chars then Walk(attrs, path[1..], Some(path[0]))
    else Walk(attrs, path, pnode)
  }

  /** _get_attribute_from_uve_path, by its two cursors. */
  method GetAttributeFromUvePath(attrs: seq<Text>, path: seq<Node>) returns (v: Json)
    requires path != []
    ensures v == Walk(attrs, path, None)
  {
    var ai, ui := 0, 0;
    var pnode := path[0];
    while ai < |attrs| && ui < |path|
      invariant ai <= |attrs| && ui <= |path|
      invariant Walk(attrs, path, None) == Walk(attrs[ai..], path[ui..], if ui == 0 then None else Some(pnode))
    {
      if IsKey(attrs[ai]) {
        return Str(path[ui].name);
      } else if IsValue(attrs[ai]) {
        return path[ui].value;
      }
      if !IsWildcard(attrs[ai]) && attrs[ai].chars != path[ui].name.chars {
        break;
      }
      pnode := path[ui];
      assert path[ui..][1..] == path[ui + 1..] && attrs[ai..][1..] == attrs[ai + 1..];
      ui, ai := ui + 1, ai + 1;
      if |path| > ui && path[ui].name.chars == MARKER.chars {
        pnode := path[ui];
        assert path[ui..][1..] == path[ui + 1..];
        ui := ui + 1;
      }
    }
    if ui == 0 {
      return Null;
    }
    v := pnode.value;
    while ai < |attrs|
      invariant ai <= |attrs|
      invariant Walk(attrs, path, None) == Descend(v, attrs[ai..])
    {
      if !v.Obj? {
        return Null;
      }
      assert attrs[ai..][1..] == attrs[ai + 1..];
      v := Find(v.fields, attrs[ai]);
      ai := ai + 1;
    }
  }

  // ----- A route leads to its value

  /** '__key' and '__value' are only the last attribute, and no attribute is the entry name for list elements. */
  predicate Proper(attrs: seq<Text>) {
    && (forall i :: 0 <= i < |attrs| ==> attrs[i].chars != MARKER.chars)
    && (forall i :: 0 <= i < |attrs| - 1 ==> !IsKey(attrs[i]) && !IsValue(attrs[i]))
  }

  /** No key of the value is the entry name for list elements. */
  predicate Unmarked(j: Json)
    decreases j
  {
    match j
    case List(items) => forall x :: x in items ==> Unmarked(x)
    case Obj(fields) => forall f :: f in fields ==> f.key.chars != MARKER.chars && Unmarked(f.value)
    case Str(text) => text.parsed.Some? ==> Unmarked(text.parsed.value)
    case _ => true
  }

  lemma {:induction false} FindUnmarked(fields: seq<Field>, name: Text)
    requires forall f :: f in fields ==> Unmarked(f.value)
    ensures Unmarked(Find(fields, name))
  {
    if fields != [] && fields[0].key.chars != name.chars {
      FindUnmarked(fields[1..], name);
    }
  }

  /** `pnode` is where the search stands: at `j`, or at a string from which `j` was parsed, or at the start. */
  predicate At(pnode: Option<Node>, j: Json, attrs: seq<Text>) {
    if pnode.None? then j.Obj? && attrs != []
    else pnode.value.value == j || (attrs != [] && pnode.value.value.Str?)
  }

  lemma {:induction false} FollowLeaf(j: Json, attrs: seq<Text>, path: seq<Node>, pnode: Option<Node>)
    requires Proper(attrs) && At(pnode, j, attrs) && Get(j, attrs, path).Leaf?
    ensures var leaf := Get(j, attrs, path);
            && path <= leaf.path
            && (forall i :: |path| <= i < |leaf.path| ==> leaf.path[i].name.chars != MARKER.chars)
            && Walk(attrs, leaf.path[|path|..], pnode) == leaf.value
    decreases |attrs|, j
  {
    var leaf := Get(j, attrs, path);
    if j == Null || attrs == [] {
    } else if j.Obj? {
      var v := Find(j.fields, attrs[0]);
      var node := Node(attrs[0], v);
      FollowLeaf(v, attrs[1..], path + [node], Some(node));
      var rest := leaf.path[|path| + 1..];
      assert leaf.path[|path|..] == [node] + rest;
      assert ([node] + rest)[1..] == rest;
    } else if j.Str? && j.text.parsed.Some? {
      FollowLeaf(j.text.parsed.value, attrs, path, pnode);
    }
  }

  /** A single value is found exactly if every attribute took a step, and what is not found is None. */
  lemma {:induction false} FoundIffAllTaken(j: Json, attrs: seq<Text>, path: seq<Node>)
    requires Get(j, attrs, path).Leaf?
    ensures var leaf := Get(j, attrs, path);
            && |path| <= |leaf.path| <= |path| + |attrs|
            && (leaf.found <==> |leaf.path| == |path| + |attrs|)
            && (!leaf.found ==> leaf.value == Null)
    decreases |attrs|, j
  {
    if j == Null || attrs == [] {
    } else if j.Obj? {
      var v := Find(j.fields, attrs[0]);
      FoundIffAllTaken(v, attrs[1..], path + [Node(attrs[0], v)]);
    } else if j.Str? && j.text.parsed.Some? {
      FoundIffAllTaken(j.text.parsed.value, attrs, path);
    }
  }

  lemma FollowPart(j: Json, attrs: seq<Text>, path: seq<Node>, pnode: Option<Node>, i: nat)
    requires Proper(attrs) && Unmarked(j) && Branches(j, attrs) && i < Width(j) && Get(j, attrs, path).items[i].Leaf?
    ensures var leaf := Get(j, attrs, path).items[i];
            path + [PartNode(j, i)] <= leaf.path && Absorb(attrs, leaf.path[|path|..], pnode) == leaf.value
  {
    var leaf := Get(j, attrs, path).items[i];
    var node, v, rest := PartNode(j, i), PartValue(j, attrs, i), AttrsLeft(j, attrs);
    assert leaf == Get(v, rest, path + [node]);
    FollowLeaf(v, rest, path + [node], Some(Node(node.name, v)));
    AfterFirst(path, node, leaf.path);
    var suffix := leaf.path[|path|..];
    var tail := leaf.path[|path + [node]|..];
    assert tail != [] ==> tail[0] == leaf.path[|path + [node]|];
    if j.Obj? {
      assert j.fields[i] in j.fields;
      assert Absorb(attrs, suffix, pnode) == Walk(attrs, suffix, pnode);
      if IsKey(attrs[0]) || IsValue(attrs[0]) {
        assert rest == [];
      } else {
        assert Walk(attrs, suffix, pnode) == Absorb(rest, tail, Some(node)) == Walk(rest, tail, Some(node));
      }
    }
  }

  lemma {:induction false} FollowMany(j: Json, attrs: seq<Text>, path: seq<Node>, pnode: Option<Node>, i: nat)
    requires Proper(attrs) && Unmarked(j) && At(pnode, j, attrs)
    requires Get(j, attrs, path).Many? && i < |Get(j, attrs, path).items| && Get(j, attrs, path).items[i].Leaf?
    ensures var leaf := Get(j, attrs, path).items[i];
            path <= leaf.path && Absorb(attrs, leaf.path[|path|..], pnode) == leaf.value
    decreases |attrs|, j
  {
    var leaf := Get(j, attrs, path).items[i];
    if j.Str? {
      FollowMany(j.text.parsed.value, attrs, path, pnode, i);
    } else if Branches(j, attrs) {
      FollowPart(j, attrs, path, pnode, i);
    } else {
      var v := Find(j.fields, attrs[0]);
      FindUnmarked(j.fields, attrs[0]);
      var node := Node(attrs[0], v);
      FollowMany(v, attrs[1..], path + [node], Some(node), i);
      AfterFirst(path, node, leaf.path);
    }
  }

  lemma AfterFirst(path: seq<Node>, node: Node, whole: seq<Node>)
    requires path + [node] <= whole
    ensures path <= whole && whole[|path|..] != [] && whole[|path|..][0] == node
    ensures whole[|path|..][1..] == whole[|path + [node]|..]
  {
  }

  /** The leaf that a path reaches directly, or one of those it reaches through one list or wildcard. */
  predicate Reaches(o: Operand, leaf: Operand) {
    leaf.Leaf? && (leaf == o || (o.Many? && leaf in o.items))
  }

  /** The route recorded with a value leads back to that value. */
  lemma RouteLeadsToValue(uve: Json, attrs: seq<Text>, leaf: Operand)
    requires uve.Obj? && Unmarked(uve) && attrs != [] && Proper(attrs) && Reaches(Get(uve, attrs, []), leaf)
    ensures Walk(attrs, leaf.path, None) == leaf.value
  {
    var o := Get(uve, attrs, []);
    if leaf == o {
      FollowLeaf(uve, attrs, [], None);
      assert leaf.path[0..] == leaf.path;
    } else {
      var i :| 0 <= i < |o.items| && o.items[i] == leaf;
      FollowMany(uve, attrs, [], None, i);
      assert leaf.path[0..] == leaf.path;
      RouteStartsWithKey(uve, attrs, i);
    }
  }

  lemma {:induction false} RouteStartsWithKey(uve: Json, attrs: seq<Text>, i: nat)
    requires uve.Obj? && Unmarked(uve) && attrs != [] && Proper(attrs)
    requires Get(uve, attrs, []).Many? && i < |Get(uve, attrs, []).items| && Get(uve, attrs, []).items[i].Leaf?
    ensures var path := Get(uve, attrs, []).items[i].path; path != [] && path[0].name.chars != MARKER.chars
  {
    var leaf := Get(uve, attrs, []).items[i];
    if Branches(uve, attrs) {
      assert uve.fields[i] in uve.fields;
      FollowPart(uve, attrs, [], None, i);
    } else {
      var v := Find(uve.fields, attrs[0]);
      var node := Node(attrs[0], v);
      FindUnmarked(uve.fields, attrs[0]);
      FollowMany(v, attrs[1..], [] + [node], Some(node), i);
    }
  }
}
