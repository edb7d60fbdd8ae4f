/**
 The field-level-encryption schema: dotted field paths are collected in a prefix tree, grown in place by
 descending from the root along each path, and the tree is rendered as a nested schema document.
 */
module FleSchema {
  import opened Wrappers

  datatype Error =
    | InvalidPath(path: string)
    | Conflict(field: nat, other: nat)

  // Dotted paths

  function Split(s: string): (parts: seq<string>)
    ensures |parts| >= 1
  {
    if s == "" then [""]
    else
      var rest := Split(s[1..]);
      if s[0] == '.' then [""] + rest else [[s[0]] + rest[0]] + rest[1..]
  }

  function Join(parts: seq<string>): string
    requires |parts| >= 1
  {
    if |parts| == 1 then parts[0] else parts[0] + "." + Join(parts[1..])
  }

  function SplitDottedPath(s: string): (r: Result<seq<string>, Error>)
    ensures r.Ok? ==> |r.value| >= 1
  {
    var parts := Split(s);
    if exists i :: 0 <= i < |parts| && parts[i] == "" then Err(InvalidPath(s)) else Ok(parts)
  }

  /** Every dot is followed by a character that is no dot. */
  predicate DotsSeparate(s: string) {
    forall i :: 0 <= i < |s| && s[i] == '.' ==> i + 1 < |s| && s[i + 1] != '.'
  }

  lemma DotsSeparateTail(s: string)
    requires s != ""
    ensures DotsSeparate(s) <==> DotsSeparate(s[1..]) && (s[0] == '.' ==> |s| > 1 && s[1] != '.')
  {
    assert forall i :: 1 <= i < |s| ==> s[i] == s[1..][i - 1];
    assert forall i :: 0 <= i < |s| - 1 ==> s[1..][i] == s[i + 1];
  }

  lemma {:induction false} SplitShape(s: string)
    ensures Split(s)[0] == "" <==> s == "" || s[0] == '.'
    ensures (forall i :: 1 <= i < |Split(s)| ==> Split(s)[i] != "") <==> DotsSeparate(s)
  {
    if s != "" {
      var rest := Split(s[1..]);
      SplitShape(s[1..]);
      DotsSeparateTail(s);
      if s[0] == '.' {
        assert forall i :: 1 <= i < |Split(s)| ==> Split(s)[i] == rest[i - 1];
        assert forall i :: 0 <= i < |rest| ==> rest[i] == Split(s)[i + 1];
      } else {
        assert forall i :: 1 <= i < |Split(s)| ==> Split(s)[i] == rest[i];
      }
    }
  }

  /** A path is refused exactly when it is empty, begins with a dot, ends with one, or has two in a row. */
  lemma AcceptedPaths(s: string)
    ensures SplitDottedPath(s).Ok? <==> s != "" && s[0] != '.' && DotsSeparate(s)
    ensures SplitDottedPath(s).Ok? ==> Join(SplitDottedPath(s).value) == s
  {
    SplitShape(s);
    JoinSplit(s);
  }

  /** Splitting loses nothing, so distinct path strings have distinct component lists. */
  lemma {:induction false} JoinSplit(s: string)
    ensures Join(Split(s)) == s
  {
    if s != "" {
      var rest := Split(s[1..]);
      JoinSplit(s[1..]);
      if s[0] == '.' {
        assert ([""] + rest)[1..] == rest;
      } else if |rest| > 1 {
        assert Split(s)[1..] == rest[1..];
      }
    }
  }

  lemma SplitCons(c: char, s: string)
    ensures Split([c] + s) == if c == '.' then [""] + Split(s) else [[c] + Split(s)[0]] + Split(s)[1..]
  {
    assert ([c] + s)[1..] == s;
  }

  lemma JoinCons(c: char, p: string, rest: seq<string>)
    ensures Join([[c] + p] + rest) == [c] + Join([p] + rest)
  {
    assert ([[c] + p] + rest)[1..] == rest && ([p] + rest)[1..] == rest;
    if rest != [] {
      assert [c] + p + "." + Join(rest) == [c] + (p + "." + Join(rest));
    }
  }

  lemma JoinEmptyFirst(rest: seq<string>)
    requires |rest| >= 1
    ensures Join([""] + rest) == ['.'] + Join(rest)
  {
    assert ([""] + rest)[1..] == rest;
  }

  /** Splitting a join of dot-free components gives the components back. */
  lemma {:induction false} SplitJoin(parts: seq<string>)
    requires |parts| >= 1 && forall i :: 0 <= i < |parts| ==> '.' !in parts[i]
    ensures Split(Join(parts)) == parts
    decreases |parts|, |parts[0]|
  {
    var rest := parts[1..];
    assert parts == [parts[0]] + rest;
    if parts[0] != "" {
      var c, p := parts[0][0], parts[0][1..];
      assert parts[0] == [c] + p;
      SplitJoin([p] + rest);
      JoinCons(c, p, rest);
      SplitCons(c, Join([p] + rest));
      assert ([p] + rest)[1..] == rest;
    } else if rest != [] {
      SplitJoin(rest);
      JoinEmptyFirst(rest);
      SplitCons('.', Join(rest));
    }
  }

  // The tree

  /** A node of the tree, in an arena: children are indices, `field` is the field that created the node. */
  datatype Node = Node(name: string, subnodes: seq<nat>, field: nat)

  /** Where a node hangs: its path from the root and its parent. */
  datatype Place = Place(path: seq<string>, parent: nat)

  predicate ChildOk(nodes: seq<Node>, places: seq<Place>, i: nat, c: nat)
    requires i < |nodes| == |places|
  {
    i < c < |nodes| && places[c].path == places[i].path + [nodes[c].name]
  }

  predicate HangsOk(nodes: seq<Node>, places: seq<Place>, c: nat)
    requires c < |nodes| == |places|
  {
    places[c].parent < c && c in nodes[places[c].parent].subnodes
  }

  /** A tree: children come after their parents, and no two nodes have the same path. */
  ghost predicate Shaped(nodes: seq<Node>, places: seq<Place>) {
    && |nodes| == |places| > 0 && places[0].path == []
    && (forall i, c :: 0 <= i < |nodes| && c in nodes[i].subnodes ==> ChildOk(nodes, places, i, c))
    && (forall c :: 0 < c < |nodes| ==> HangsOk(nodes, places, c))
    && (forall i, j :: 0 <= i < j < |nodes| ==> places[i].path != places[j].path)
  }

  predicate LeafOk(nodes: seq<Node>, places: seq<Place>, i: nat, path: seq<string>, field: nat)
    requires |nodes| == |places|
  {
    0 < i < |nodes| && places[i].path == path && nodes[i].subnodes == [] && nodes[i].field == field
  }

  predicate NodeOk(nodes: seq<Node>, places: seq<Place>, i: nat, ps: seq<seq<string>>)
    requires i < |nodes| == |places|
  {
    nodes[i].field < |ps| && places[i].path <= ps[nodes[i].field] &&
    (nodes[i].subnodes == [] ==> places[i].path == ps[nodes[i].field])
  }

  /**
   The leaves are the paths of ps, each carrying its own field (leaf k is node leaves[k]), and every node
   other than the root is on the way to one.
   */
  ghost predicate Represents(nodes: seq<Node>, places: seq<Place>, ps: seq<seq<string>>, leaves: seq<nat>)
    requires |nodes| == |places|
  {
    && |leaves| == |ps|
    && (forall k :: 0 <= k < |ps| ==> LeafOk(nodes, places, leaves[k], ps[k], k))
    && (forall i :: 0 < i < |nodes| ==> NodeOk(nodes, places, i, ps))
  }

  ghost predicate PrefixFree(ps: seq<seq<string>>) {
    forall i, j :: 0 <= i < |ps| && 0 <= j < |ps| && i != j ==> !(ps[i] <= ps[j])
  }

  /** Every prefix of a node's path is a node's path. */
  lemma {:induction false} PrefixClosed(nodes: seq<Node>, places: seq<Place>, i: nat, d: nat) returns (j: nat)
    requires Shaped(nodes, places) && i < |nodes| && d <= |places[i].path|
    ensures j < |nodes| && places[j].path == places[i].path[..d]
    ensures d < |places[i].path| ==> nodes[j].subnodes != []
    decreases i
  {
    if d == |places[i].path| {
      assert places[i].path[..d] == places[i].path;
      return i;
    }
    var p := places[i].parent;
    assert HangsOk(nodes, places, i) && ChildOk(nodes, places, p, i);
    assert places[i].path[..d] == places[p].path[..d];
    j := PrefixClosed(nodes, places, p, d);
    if d == |places[p].path| {
      assert places[j].path == places[p].path;
    }
  }

  /** A tree of leaves can only represent a prefix-free list. */
  lemma RepresentsPrefixFree(nodes: seq<Node>, places: seq<Place>, ps: seq<seq<string>>, leaves: seq<nat>)
    requires Shaped(nodes, places) && Represents(nodes, places, ps, leaves)
    ensures PrefixFree(ps)
  {
    forall a, b | 0 <= a < |ps| && 0 <= b < |ps| && a != b
      ensures !(ps[a] <= ps[b])
    {
      assert LeafOk(nodes, places, leaves[a], ps[a], a) && LeafOk(nodes, places, leaves[b], ps[b], b);
      if ps[a] <= ps[b] {
        var m := PrefixClosed(nodes, places, leaves[b], |ps[a]|);
      }
    }
  }

  lemma SnocInjective<T>(xs: seq<T>, x: T, ys: seq<T>, y: T)
    requires xs + [x] == ys + [y]
    ensures xs == ys && x == y
  {
    assert (xs + [x])[..|xs|] == xs && (ys + [y])[..|ys|] == ys;
    assert (xs + [x])[|xs|] == x && (ys + [y])[|ys|] == y;
  }

  /** Hanging a fresh child below a node. */
  function Grown(nodes: seq<Node>, level: nat, name: string, field: nat): seq<Node>
    requires level < |nodes|
  {
    nodes[level := nodes[level].(subnodes := nodes[level].subnodes + [|nodes|])] + [Node(name, [], field)]
  }

  lemma GrowthKeepsShape(nodes: seq<Node>, places: seq<Place>, level: nat, name: string, field: nat)
    requires Shaped(nodes, places) && level < |nodes|
    requires forall c :: c in nodes[level].subnodes ==> c < |nodes| && nodes[c].name != name
    ensures Shaped(Grown(nodes, level, name, field), places + [Place(places[level].path + [name], level)])
  {
    var nodes' := Grown(nodes, level, name, field);
    var places' := places + [Place(places[level].path + [name], level)];
    forall i, c | 0 <= i < |nodes'| && c in nodes'[i].subnodes
      ensures ChildOk(nodes', places', i, c)
    {
      if c < |nodes| {
        assert c in nodes[i].subnodes && ChildOk(nodes, places, i, c);
      }
    }
    forall c | 0 < c < |nodes'|
      ensures HangsOk(nodes', places', c)
    {
      if c < |nodes| {
        assert HangsOk(nodes, places, c);
      }
    }
    forall i | 0 <= i < |nodes|
      ensures places[i].path != places[level].path + [name]
    {
      if i > 0 && places[i].path == places[level].path + [name] {
        var p := places[i].parent;
        assert HangsOk(nodes, places, i) && ChildOk(nodes, places, p, i);
        SnocInjective(places[p].path, nodes[i].name, places[level].path, name);
      }
    }
  }

  /** Starting a new path below a node that is on the way to others, or below the root. */
  lemma BranchRepresents(
      nodes: seq<Node>, places: seq<Place>, ps: seq<seq<string>>, leaves: seq<nat>, level: nat, name: string)
    requires Shaped(nodes, places) && Represents(nodes, places, ps, leaves)
    requires level < |nodes| && (level == 0 || nodes[level].subnodes != [])
    ensures var path := places[level].path + [name];
            Represents(Grown(nodes, level, name, |ps|), places + [Place(path, level)], ps + [path], leaves + [|nodes|])
  {
    var path := places[level].path + [name];
    var nodes', places', ps' := Grown(nodes, level, name, |ps|), places + [Place(path, level)], ps + [path];
    forall k | 0 <= k < |ps|
      ensures LeafOk(nodes', places', leaves[k], ps[k], k)
    {
      assert LeafOk(nodes, places, leaves[k], ps[k], k);
    }
    forall i | 0 < i < |nodes|
      ensures NodeOk(nodes', places', i, ps')
    {
      assert NodeOk(nodes, places, i, ps);
    }
  }

  /** Growing the leaf of an unfinished path. */
  lemma ExtendRepresents(
      nodes: seq<Node>, places: seq<Place>, ps: seq<seq<string>>, path: seq<string>, leaves: seq<nat>, name: string)
    requires Shaped(nodes, places) && Represents(nodes, places, ps + [path], leaves)
    ensures leaves[|ps|] < |nodes|
    ensures var longer, level := path + [name], leaves[|ps|];
            Represents(Grown(nodes, level, name, |ps|), places + [Place(longer, level)], ps + [longer], leaves[|ps| := |nodes|])
  {
    var longer, level := path + [name], leaves[|ps|];
    assert LeafOk(nodes, places, level, (ps + [path])[|ps|], |ps|);
    var nodes', places', ps' := Grown(nodes, level, name, |ps|), places + [Place(longer, level)], ps + [longer];
    forall k | 0 <= k < |ps|
      ensures LeafOk(nodes', places', leaves[k], ps[k], k)
    {
      assert LeafOk(nodes, places, leaves[k], (ps + [path])[k], k);
    }
    forall i | 0 < i < |nodes|
      ensures NodeOk(nodes', places', i, ps')
    {
      assert NodeOk(nodes, places, i, ps + [path]);
      assert nodes[i].subnodes == [] && nodes[i].field == |ps| ==> places[i].path == places[level].path;
    }
  }

  /** std::find_if over the children of a node. */
  method FindChild(nodes: seq<Node>, level: nat, name: string) returns (c: nat, found: bool)
    requires level < |nodes| && forall i :: i in nodes[level].subnodes ==> i < |nodes|
    ensures found ==> c in nodes[level].subnodes && nodes[c].name == name
    ensures !found ==> forall i :: i in nodes[level].subnodes ==> nodes[i].name != name
  {
    var kids := nodes[level].subnodes;
    assert forall j :: 0 <= j < |kids| ==> kids[j] in kids;
    for k := 0 to |kids|
      invariant forall j :: 0 <= j < k ==> nodes[kids[j]].name != name
    {
      if nodes[kids[k]].name == name {
        return kids[k], true;
      }
    }
    return 0, false;
  }

  /** Follow the branches that match the path and add the missing ones; stop at a conflict. */
  method Insert(start: seq<Node>, ghost startPlaces: seq<Place>, ghost startLeaves: seq<nat>, ghost ps: seq<seq<string>>,
                parts: seq<string>, field: nat)
    returns (ok: bool, other: nat, nodes: seq<Node>, ghost places: seq<Place>, ghost leaves: seq<nat>)
    requires Shaped(start, startPlaces) && Represents(start, startPlaces, ps, startLeaves)
    requires |parts| >= 1 && field == |ps|
    ensures ok ==> Shaped(nodes, places) && Represents(nodes, places, ps + [parts], leaves)
    ensures !ok ==> other < |ps| && (ps[other] <= parts || parts <= ps[other])
  {
    ok, other, nodes, places, leaves := true, 0, start, startPlaces, startLeaves;
    var level: nat := 0;
    ghost var growing := false;
    for d := 0 to |parts|
      invariant Shaped(nodes, places) && level < |nodes| && places[level].path == parts[..d]
      invariant !growing ==> d < |parts| && nodes == start && Represents(nodes, places, ps, leaves)
      invariant !growing ==> level == 0 || nodes[level].subnodes != []
      invariant growing ==> Represents(nodes, places, ps + [parts[..d]], leaves) && level == leaves[|ps|]
    {
      assert growing ==> LeafOk(nodes, places, leaves[|ps|], (ps + [parts[..d]])[|ps|], |ps|);
      assert parts[..d] + [parts[d]] == parts[..d + 1];
      assert forall c :: c in nodes[level].subnodes ==> ChildOk(nodes, places, level, c);
      var c, found := FindChild(nodes, level, parts[d]);
      if found {
        if nodes[c].subnodes == [] || d == |parts| - 1 {
          assert NodeOk(nodes, places, c, ps);
          ok, other := false, nodes[c].field;
          return;
        }
        level := c;
      } else {
        GrowthKeepsShape(nodes, places, level, parts[d], field);
        if growing {
          ExtendRepresents(nodes, places, ps, parts[..d], leaves, parts[d]);
          leaves := leaves[|ps| := |nodes|];
        } else {
          BranchRepresents(nodes, places, ps, leaves, level, parts[d]);
          leaves := leaves + [|nodes|];
        }
        places := places + [Place(places[level].path + [parts[d]], level)];
        nodes := Grown(nodes, level, parts[d], field);
        level, growing := |nodes| - 1, true;
      }
    }
    assert parts[..|parts|] == parts;
  }

  // The schema document

  datatype Schema = Encrypt(field: nat) | Object(properties: seq<(string, Schema)>)

  /** What appendSchema adds to the document it is given. */
  datatype Appended = Nothing | Document(schema: Schema)

  predicate Descending(nodes: seq<Node>) {
    forall i, c :: 0 <= i < |nodes| && c in nodes[i].subnodes ==> i < c < |nodes|
  }

  /** FLEFieldPathNode::append */
  function Render(nodes: seq<Node>, i: nat): Schema
    requires Descending(nodes) && i < |nodes|
    decreases |nodes| - i
  {
    var kids := nodes[i].subnodes;
    if kids == [] then Encrypt(nodes[i].field)
    else Object(seq(|kids|, j requires 0 <= j < |kids| =>
                  assert kids[j] in kids; (nodes[kids[j]].name, Render(nodes, kids[j]))))
  }

  /** Following the path through the document's properties leads to the encryption rule of this field. */
  ghost predicate Encrypts(s: Schema, path: seq<string>, field: nat)
    decreases |path|
  {
    match s
    case Encrypt(f) => path == [] && f == field
    case Object(properties) =>
      path != [] &&
      exists j :: 0 <= j < |properties| && properties[j].0 == path[0] && Encrypts(properties[j].1, path[1..], field)
  }

  lemma {:induction false} EncryptsSound(
      nodes: seq<Node>, places: seq<Place>, ps: seq<seq<string>>, leaves: seq<nat>, i: nat, path: seq<string>, field: nat)
    requires Shaped(nodes, places) && Descending(nodes) && Represents(nodes, places, ps, leaves)
    requires i < |nodes| && (i == 0 ==> nodes[i].subnodes != []) && Encrypts(Render(nodes, i), path, field)
    ensures field < |ps| && ps[field] == places[i].path + path
    decreases |path|
  {
    var kids := nodes[i].subnodes;
    if kids == [] {
      assert NodeOk(nodes, places, i, ps);
      assert places[i].path + path == places[i].path;
    } else {
      var properties := Render(nodes, i).properties;
      var j :| 0 <= j < |properties| && properties[j].0 == path[0] && Encrypts(properties[j].1, path[1..], field);
      var c := kids[j];
      assert c in kids && ChildOk(nodes, places, i, c);
      EncryptsSound(nodes, places, ps, leaves, c, path[1..], field);
      assert places[c].path + path[1..] == places[i].path + path;
    }
  }

  /** What is encrypted below a node is encrypted below the root, at the longer path. */
  lemma {:induction false} EncryptsFromRoot(nodes: seq<Node>, places: seq<Place>, c: nat, path: seq<string>, field: nat)
    requires Shaped(nodes, places) && Descending(nodes) && c < |nodes| && Encrypts(Render(nodes, c), path, field)
    ensures Encrypts(Render(nodes, 0), places[c].path + path, field)
    decreases c
  {
    if c == 0 {
      assert [] + path == path;
    } else {
      var p := places[c].parent;
      assert HangsOk(nodes, places, c) && ChildOk(nodes, places, p, c);
      var j :| 0 <= j < |nodes[p].subnodes| && nodes[p].subnodes[j] == c;
      var longer := [nodes[c].name] + path;
      assert longer[1..] == path;
      assert Render(nodes, p).properties[j] == (nodes[c].name, Render(nodes, c));
      assert Encrypts(Render(nodes, p), longer, field);
      EncryptsFromRoot(nodes, places, p, longer, field);
      assert places[p].path + longer == places[c].path + path;
    }
  }

  /** The rendered document encrypts exactly the represented paths, each with its own field. */
  lemma RenderEncrypts(nodes: seq<Node>, places: seq<Place>, ps: seq<seq<string>>, leaves: seq<nat>, path: seq<string>, field: nat)
    requires Shaped(nodes, places) && Descending(nodes) && Represents(nodes, places, ps, leaves) && ps != []
    ensures Encrypts(Render(nodes, 0), path, field) <==> field < |ps| && path == ps[field]
  {
    assert LeafOk(nodes, places, leaves[0], ps[0], 0);
    assert HangsOk(nodes, places, 1);
    if Encrypts(Render(nodes, 0), path, field) {
      EncryptsSound(nodes, places, ps, leaves, 0, path, field);
      assert [] + path == path;
    }
    if field < |ps| && path == ps[field] {
      assert LeafOk(nodes, places, leaves[field], ps[field], field);
      assert Encrypts(Render(nodes, leaves[field]), [], field);
      EncryptsFromRoot(nodes, places, leaves[field], [], field);
      assert path + [] == path;
    }
  }

  /** Component lists of the first k paths. */
  function Components(fields: seq<string>, k: nat): seq<seq<string>>
    requires k <= |fields|
  {
    seq(k, i requires 0 <= i < k => Split(fields[i]))
  }

  predicate ValidPath(s: string) {
    SplitDottedPath(s).Ok?
  }

  /** The first k fields can be accepted. */
  ghost predicate Accepts(fields: seq<string>, k: nat)
    requires k <= |fields|
  {
    (forall i :: 0 <= i < k ==> ValidPath(fields[i])) && PrefixFree(Components(fields, k))
  }

  /**
   FLEEncryptedCollection::appendSchema: it succeeds exactly when every path is valid and no path is a
   component-wise prefix of another, and then what it appends encrypts exactly the given paths.  An error is about the
   first field that cannot be accepted after those before it.
   */
  method AppendSchema(fields: seq<string>) returns (r: Result<Appended, Error>)
    ensures r.Ok? <==> (forall k :: 0 <= k < |fields| ==> ValidPath(fields[k])) && PrefixFree(Components(fields, |fields|))
    ensures r.Ok? ==> (r.value == Nothing <==> fields == [])
    ensures r.Ok? && fields != [] ==>
              forall path, f: nat :: Encrypts(r.value.schema, path, f) <==> f < |fields| && path == Split(fields[f])
    ensures r.Err? && r.error.InvalidPath? ==>
              exists k :: 0 <= k < |fields| && r.error.path == fields[k] && !ValidPath(fields[k]) && Accepts(fields, k)
    ensures r.Err? && r.error.Conflict? ==>
              && r.error.other < r.error.field < |fields|
              && ValidPath(fields[r.error.field]) && Accepts(fields, r.error.field)
              && (Split(fields[r.error.other]) <= Split(fields[r.error.field]) ||
                  Split(fields[r.error.field]) <= Split(fields[r.error.other]))
  {
    if fields == [] {
      return Ok(Nothing);
    }
    var nodes := [Node("", [], 0)];
    ghost var places, leaves := [Place([], 0)], [];
    for k := 0 to |fields|
      invariant forall i :: 0 <= i < k ==> ValidPath(fields[i])
      invariant Shaped(nodes, places) && Represents(nodes, places, Components(fields, k), leaves)
    {
      RepresentsPrefixFree(nodes, places, Components(fields, k), leaves);
      assert Accepts(fields, k);
      var parts := SplitDottedPath(fields[k]);
      if parts.Err? {
        return Err(parts.error);
      }
      ghost var ps := Components(fields, k);
      var ok, other, nodes', places', leaves' := Insert(nodes, places, leaves, ps, parts.value, k);
      if !ok {
        ghost var all := Components(fields, |fields|);
        assert all[other] == ps[other] && all[k] == parts.value;
        return Err(Conflict(k, other));
      }
      assert Components(fields, k + 1) == ps + [parts.value];
      nodes, places, leaves := nodes', places', leaves';
    }
    ghost var ps := Components(fields, |fields|);
    RepresentsPrefixFree(nodes, places, ps, leaves);
    assert Descending(nodes) by {
      forall i, c | 0 <= i < |nodes| && c in nodes[i].subnodes
        ensures i < c < |nodes|
      {
        assert ChildOk(nodes, places, i, c);
      }
    }
    r := Ok(Document(Render(nodes, 0)));
    forall path, f: nat
      ensures Encrypts(r.value.schema, path, f) <==> f < |fields| && path == Split(fields[f])
    {
      RenderEncrypts(nodes, places, ps, leaves, path, f);
    }
  }

  /** `at` lists the numbers below n, each once. */
  ghost predicate Reorders(at: seq<nat>, n: nat) {
    && |at| == n
    && (forall i :: 0 <= i < |at| ==> at[i] < n)
    && (forall i, j :: 0 <= i < j < |at| ==> at[i] != at[j])
    && (forall k :: 0 <= k < n ==> k in at)
  }

  lemma ReorderedPrefixFree(ps: seq<seq<string>>, qs: seq<seq<string>>, at: seq<nat>)
    requires Reorders(at, |ps|) && |qs| == |ps| && forall i :: 0 <= i < |at| ==> qs[i] == ps[at[i]]
    ensures PrefixFree(ps) <==> PrefixFree(qs)
  {
    if PrefixFree(qs) {
      forall a, b | 0 <= a < |ps| && 0 <= b < |ps| && a != b
        ensures !(ps[a] <= ps[b])
      {
        assert a in at && b in at;
        var i :| 0 <= i < |at| && at[i] == a;
        var j :| 0 <= j < |at| && at[j] == b;
        assert !(qs[i] <= qs[j]);
      }
    }
  }

  lemma ReorderedValid(fields: seq<string>, others: seq<string>, at: seq<nat>)
    requires Reorders(at, |fields|) && |others| == |fields| && forall i :: 0 <= i < |at| ==> others[i] == fields[at[i]]
    ensures (forall k :: 0 <= k < |fields| ==> ValidPath(fields[k])) <==>
            (forall k :: 0 <= k < |others| ==> ValidPath(others[k]))
  {
    if forall k :: 0 <= k < |others| ==> ValidPath(others[k]) {
      forall k | 0 <= k < |fields|
        ensures ValidPath(fields[k])
      {
        assert k in at;
        var i :| 0 <= i < |at| && at[i] == k;
        assert ValidPath(others[i]);
      }
    }
  }

  /**
   The order in which the fields are visited does not matter: appendSchema succeeds or fails alike, and on
   success the same paths get the encryption rules of the same fields.
   */
  method AppendReordered(fields: seq<string>, at: seq<nat>)
    returns (first: Result<Appended, Error>, second: Result<Appended, Error>)
    requires Reorders(at, |fields|)
    ensures first.Ok? <==> second.Ok?
    ensures first.Ok? ==> (first.value == Nothing <==> second.value == Nothing)
    ensures first.Ok? && first.value != Nothing ==>
              forall path, f: nat ::
                Encrypts(second.value.schema, path, f) <==> f < |at| && Encrypts(first.value.schema, path, at[f])
  {
    var others := seq(|at|, i requires 0 <= i < |at| => fields[at[i]]);
    first := AppendSchema(fields);
    second := AppendSchema(others);
    ReorderedPrefixFree(Components(fields, |fields|), Components(others, |others|), at);
    ReorderedValid(fields, others, at);
  }
}
