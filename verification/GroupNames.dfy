/** Building the accounting-group tree from a list of dotted names. Names are ASCII and compared without case. */
module GroupNames {
  import opened GroupNodes
  import opened Options

  // ----- names and paths -----

  function LowerChar(c: char): char {
    if 'A' <= c <= 'Z' then (c as int + 32) as char else c
  }

  function Lower(s: string): (r: string)
    ensures |r| == |s| && forall i :: 0 <= i < |s| ==> r[i] == LowerChar(s[i])
  {
    seq(|s|, i requires 0 <= i < |s| => LowerChar(s[i]))
  }

  /** The dotted components; there is always at least one. */
  function Split(s: string): (p: seq<string>)
    ensures |p| > 0
  {
    if |s| == 0 then [""]
    else
      var rest := Split(s[1..]);
      if s[0] == '.' then [""] + rest else [[s[0]] + rest[0]] + rest[1..]
  }

  ghost function Join(p: seq<string>): string {
    if |p| == 0 then ""
    else if |p| == 1 then p[0]
    else p[0] + "." + Join(p[1..])
  }

  lemma {:induction false} JoinSplit(s: string)
    ensures Join(Split(s)) == s
    decreases |s|
  {
    if |s| > 0 {
      JoinSplit(s[1..]);
      var rest := Split(s[1..]);
      if s[0] == '.' {
        assert Split(s)[1..] == rest;
        assert Join(Split(s)) == "" + "." + Join(rest);
      } else {
        assert Split(s)[1..] == rest[1..];
      }
      assert [s[0]] + s[1..] == s;
    }
  }

  /** A longer path is a longer name. */
  lemma {:induction false} JoinExtends(q: seq<string>, p: seq<string>)
    requires 0 < |q| < |p| && p[..|q|] == q
    ensures Join(q) + "." <= Join(p)
  {
    if |q| == 1 {
      assert p[0] == q[0];
    } else {
      assert p[1..][..|q| - 1] == q[1..];
      JoinExtends(q[1..], p[1..]);
      assert p[0] == q[0];
    }
  }

  /** Where a configured name goes in the tree. */
  function Path(name: string): (p: seq<string>)
    ensures |p| > 0
  {
    Split(Lower(name))
  }

  function LowerAll(p: seq<string>): (r: seq<string>)
    ensures |r| == |p| && forall i :: 0 <= i < |p| ==> r[i] == Lower(p[i])
  {
    seq(|p|, i requires 0 <= i < |p| => Lower(p[i]))
  }

  /** Case and splitting do not interfere. */
  lemma {:induction false} SplitLower(s: string)
    ensures Split(Lower(s)) == LowerAll(Split(s))
    decreases |s|
  {
    if |s| == 0 {
      assert Lower(s) == "";
      assert Lower("") == "";
    } else {
      SplitLower(s[1..]);
      assert Lower(s)[1..] == Lower(s[1..]);
      var rest := Split(s[1..]);
      if s[0] == '.' {
        assert Lower("") == "";
        assert LowerAll([""] + rest) == [""] + LowerAll(rest);
      } else {
        assert Lower([s[0]] + rest[0]) == [LowerChar(s[0])] + Lower(rest[0]);
        assert LowerAll([[s[0]] + rest[0]] + rest[1..]) == [Lower([s[0]] + rest[0])] + LowerAll(rest)[1..];
      }
    }
  }

  // ----- the order -----

  predicate LexLess(a: string, b: string) {
    |b| > 0 && (|a| == 0 || a[0] < b[0] || (a[0] == b[0] && LexLess(a[1..], b[1..])))
  }

  predicate CiLess(a: string, b: string) {
    LexLess(Lower(a), Lower(b))
  }

  lemma {:induction false} LexIsOrder(a: string, b: string, c: string)
    ensures LexLess(a, b) ==> !LexLess(b, a)
    ensures !LexLess(b, a) && !LexLess(c, b) ==> !LexLess(c, a)
    decreases |a| + |b| + |c|
  {
    if |a| > 0 && |b| > 0 && |c| > 0 {
      LexIsOrder(a[1..], b[1..], c[1..]);
    } else if |a| > 0 && |b| > 0 {
      LexIsOrder(a[1..], b[1..], c);
    }
  }

  lemma {:induction false} PrefixIsLess(a: string, b: string)
    requires a < b
    ensures LexLess(a, b)
  {
    if |a| > 0 {
      PrefixIsLess(a[1..], b[1..]);
    }
  }

  ghost predicate Sorted(names: seq<string>) {
    forall i, j :: 0 <= i < j < |names| ==> !CiLess(names[j], names[i])
  }

  lemma InsertSorted(names: seq<string>, x: string, pos: nat, out: seq<string>)
    requires Sorted(names) && pos <= |names|
    requires pos > 0 ==> !CiLess(x, names[pos - 1])
    requires forall p :: pos <= p < |names| ==> CiLess(x, names[p])
    requires out == names[..pos] + [x] + names[pos..]
    ensures Sorted(out)
  {
    hide LexLess, Lower;
    forall p | 0 <= p < |names|
      ensures p < pos ==> !CiLess(x, names[p])
      ensures p >= pos ==> !CiLess(names[p], x)
    {
      if p < pos {
        LexIsOrder(Lower(names[p]), Lower(names[pos - 1]), Lower(x));
      } else {
        LexIsOrder(Lower(x), Lower(names[p]), Lower(x));
      }
    }
    forall p, q | 0 <= p < q < |out| ensures !CiLess(out[q], out[p]) {
      assert out[p] == if p < pos then names[p] else if p == pos then x else names[p - 1];
      assert out[q] == if q < pos then names[q] else if q == pos then x else names[q - 1];
    }
  }

  /** A stable sort: parents come before their children. */
  method SortNames(names: seq<string>) returns (sorted: seq<string>)
    ensures Sorted(sorted) && forall g :: g in sorted <==> g in names
  {
    hide CiLess, Sorted;
    sorted := [];
    NothingSorted();
    for k := 0 to |names|
      invariant |sorted| == k && Sorted(sorted) && forall g :: g in sorted <==> g in names[..k]
    {
      var pos := k;
      while pos > 0 && CiLess(names[k], sorted[pos - 1])
        invariant 0 <= pos <= k
        invariant forall p :: pos <= p < k ==> CiLess(names[k], sorted[p])
      {
        pos := pos - 1;
      }
      var out := sorted[..pos] + [names[k]] + sorted[pos..];
      InsertSorted(sorted, names[k], pos, out);
      assert sorted == sorted[..pos] + sorted[pos..];
      assert forall g :: g in out <==> g in sorted || g == names[k];
      sorted := out;
    }
  }

  lemma NothingSorted()
    ensures Sorted([])
  {
  }

  // ----- what the configuration asks for -----

  ghost predicate Configured(names: seq<string>, p: seq<string>) {
    exists i :: 0 <= i < |names| && Path(names[i]) == p
  }

  /** The path and all its ancestors are configured. */
  ghost predicate Rooted(names: seq<string>, p: seq<string>) {
    forall k :: 1 <= k <= |p| ==> Configured(names, p[..k])
  }

  lemma ConfiguredStep(names: seq<string>, n: nat, p: seq<string>)
    requires n < |names|
    ensures Configured(names[..n + 1], p) <==> Configured(names[..n], p) || Path(names[n]) == p
  {
    hide Path;
    var next := names[..n + 1];
    if i :| 0 <= i < n && Path(names[..n][i]) == p {
      assert next[i] == names[..n][i];
    }
    assert next[n] == names[n];
    if i :| 0 <= i < n + 1 && Path(next[i]) == p {
      assert i < n ==> names[..n][i] == next[i];
    }
  }

  /** In sorted order, nothing that comes earlier lies below a name. */
  lemma NoneBelow(names: seq<string>, n: nat, p: seq<string>)
    requires Sorted(names) && n < |names|
    requires |Path(names[n])| < |p| && p[..|Path(names[n])|] == Path(names[n])
    ensures !Configured(names[..n], p)
  {
    hide LexLess, Split, Join, Lower;
    if i :| 0 <= i < n && Path(names[..n][i]) == p {
      var g, h := Lower(names[n]), Lower(names[i]);
      assert names[..n][i] == names[i];
      JoinSplit(g);
      JoinSplit(h);
      JoinExtends(Path(names[n]), p);
      assert g < h;
      PrefixIsLess(g, h);
    }
  }

  /** Taking in the next name roots its own path if its ancestors are rooted, and no other. */
  lemma RootedStep(names: seq<string>, n: nat, p: seq<string>)
    requires Sorted(names) && n < |names|
    ensures var q := Path(names[n]);
            Rooted(names[..n + 1], p) <==> Rooted(names[..n], p) || (p == q && Rooted(names[..n], q[..|q| - 1]))
  {
    hide Path, Sorted, Configured;
    var q := Path(names[n]);
    var front := q[..|q| - 1];
    assert p[..|p|] == p;
    forall k | 1 <= k <= |p| ensures Configured(names[..n + 1], p[..k]) <==>
      Configured(names[..n], p[..k]) || p[..k] == q {
      ConfiguredStep(names, n, p[..k]);
    }
    if Rooted(names[..n + 1], p) && !Rooted(names[..n], p) {
      var k :| 1 <= k <= |p| && !Configured(names[..n], p[..k]);
      assert p[..k] == q;
      if k < |p| {
        NoneBelow(names, n, p);
        assert false;
      }
      assert p == q;
      forall j | 1 <= j <= |front| ensures Configured(names[..n], front[..j]) {
        assert front[..j] == p[..j];
      }
    }
    if p == q && Rooted(names[..n], front) {
      forall j | 1 <= j <= |p| ensures Configured(names[..n + 1], p[..j]) {
        if j == |p| {
          assert p[..j] == q;
        } else {
          assert front[..j] == p[..j];
        }
      }
    }
  }

  // ----- the tree -----

  /** Each path occurs once, and a node's name spells its path, which extends its parent's. */
  ghost predicate Shape(names: seq<string>, parent: seq<nat>, paths: seq<seq<string>>) {
    && |names| == |parent| == |paths| > 0 && paths[0] == []
    && (forall i {:trigger parent[i]} :: 0 < i < |names| ==>
          parent[i] < i && |paths[i]| > 0 && paths[parent[i]] == paths[i][..|paths[i]| - 1] &&
            Path(names[i]) == paths[i])
    && (forall i, j :: 0 <= i < j < |paths| ==> paths[i] != paths[j])
  }

  /** The children of a node are those whose parent it is. */
  ghost predicate Links(parent: seq<nat>, children: seq<seq<nat>>) {
    |parent| == |children| && forall i :: 0 <= i < |children| ==>
      forall c :: c in children[i] <==> 0 < c < |parent| && parent[c] == i
  }

  lemma RootIs(names: seq<string>, parent: seq<nat>, paths: seq<seq<string>>)
    requires Shape(names, parent, paths)
    ensures |paths| > 0 && paths[0] == []
  {
  }

  lemma ChildIs(names: seq<string>, parent: seq<nat>, children: seq<seq<nat>>, paths: seq<seq<string>>, i: nat, k: nat)
    requires Shape(names, parent, paths) && Links(parent, children) && i < |children| && k < |children[i]|
    ensures var c := children[i][k];
            c < |paths| && Path(names[c]) == paths[c] && |paths[c]| > 0 &&
              paths[c] == paths[i] + [paths[c][|paths[c]| - 1]]
  {
    hide Path;
    var c := children[i][k];
    assert c in children[i];
    assert paths[c] == paths[c][..|paths[c]| - 1] + [paths[c][|paths[c]| - 1]];
  }

  lemma IsChild(names: seq<string>, parent: seq<nat>, children: seq<seq<nat>>, paths: seq<seq<string>>, i: nat,
                j: nat, leaf: string)
    requires Shape(names, parent, paths) && Links(parent, children) && i < |paths| && j < |paths| &&
             paths[j] == paths[i] + [leaf]
    ensures exists k :: 0 <= k < |children[i]| && children[i][k] == j
  {
    hide Path;
    assert j > 0 && paths[j][..|paths[j]| - 1] == paths[i];
    assert parent[j] == i;
    assert j in children[i];
  }

  lemma ShapeGrows(names: seq<string>, parent: seq<nat>, paths: seq<seq<string>>, group: nat, name: string)
    requires Shape(names, parent, paths) && group < |names| && paths[group] == Path(name)[..|Path(name)| - 1]
    requires !Occurs(paths, Path(name))
    ensures Shape(names + [name], parent + [group], paths + [Path(name)])
  {
    hide Path;
    var names', parent', next := names + [name], parent + [group], paths + [Path(name)];
    forall i | 0 < i < |next|
      ensures parent'[i] < i && |next[i]| > 0
      ensures next[parent'[i]] == next[i][..|next[i]| - 1] && Path(names'[i]) == next[i]
    {
      if i < |paths| {
        assert parent'[i] == parent[i];
      }
    }
    forall i, j | 0 <= i < j < |next| ensures next[i] != next[j] {
      if j == |paths| {
        assert paths[i] != Path(name);
      } else {
        assert paths[i] != paths[j];
      }
    }
  }

  lemma LinksGrow(names: seq<string>, parent: seq<nat>, paths: seq<seq<string>>, children: seq<seq<nat>>, group: nat)
    requires Shape(names, parent, paths) && Links(parent, children) && group < |parent|
    ensures Links(parent + [group], children[group := children[group] + [|parent|]] + [[]])
  {
    hide Path;
    var next := children[group := children[group] + [|parent|]] + [[]];
    forall i, c | 0 <= i < |next| ensures c in next[i] <==> 0 < c < |parent| + 1 && (parent + [group])[c] == i {
      if i < |children| {
        assert c in next[i] <==> c in children[i] || (i == group && c == |parent|);
        assert c in children[i] <==> 0 < c < |parent| && parent[c] == i;
      }
    }
  }

  /** The tree as an arena: node 0 is the root, and a node's place is its index. */
  class Forest {
    var names: seq<string>
    var parent: seq<nat>
    var children: seq<seq<nat>>
    ghost var paths: seq<seq<string>>

    constructor ()
      ensures Valid() && paths == [[]] && names == [ROOT_GROUP_NAME]
    {
      names, parent, children, paths := [ROOT_GROUP_NAME], [0], [[]], [[]];
    }

    ghost predicate Valid()
      reads this
    {
      |names| == |parent| == |children| == |paths| && Shape(names, parent, paths) && Links(parent, children)
    }

    ghost predicate Has(p: seq<string>)
      reads this
    {
      Occurs(paths, p)
    }

    /** The child whose last component is `component`, ignoring case. */
    method FindChild(i: nat, component: string) returns (child: Option<nat>)
      requires Valid() && i < |names|
      ensures child.Some? ==> child.value < |names| && paths[child.value] == paths[i] + [Lower(component)]
      ensures child.None? ==> !Has(paths[i] + [Lower(component)])
    {
      hide Path, Split, Lower, Shape, Links;
      ghost var p := paths[i] + [Lower(component)];
      for k := 0 to |children[i]|
        invariant forall j :: 0 <= j < k ==> children[i][j] < |paths| && paths[children[i][j]] != p
      {
        var c := children[i][k];
        ChildIs(names, parent, children, paths, i, k);
        var leaf := Split(names[c])[|Split(names[c])| - 1];
        LeafOf(names[c]);
        if Lower(leaf) == Lower(component) {
          return Some(c);
        }
      }
      if j :| 0 <= j < |paths| && paths[j] == p {
        IsChild(names, parent, children, paths, i, j, Lower(component));
      }
      return None;
    }

    /** Walk from the root along all components but the last. */
    method FindParent(path: seq<string>) returns (group: Option<nat>)
      requires Valid() && |path| > 0
      ensures group.Some? ==> group.value < |names| && paths[group.value] == LowerAll(path)[..|path| - 1]
      ensures group.None? ==> !Has(LowerAll(path)[..|path| - 1])
    {
      hide LowerAll, Shape, Links, Lower;
      RootIs(names, parent, paths);
      var at: nat := 0;
      ghost var q := LowerAll(path);
      for k := 0 to |path| - 1
        invariant at < |names| && paths[at] == q[..k]
      {
        var child := FindChild(at, path[k]);
        assert q[..k + 1] == q[..k] + [Lower(path[k])];
        if child.None? {
          NoneDeeper(q, k + 1, |path| - 1);
          return None;
        }
        at := child.value;
      }
      return Some(at);
    }

    /** A path that is missing has no descendants. */
    lemma {:induction false} NoneDeeper(q: seq<string>, k: nat, n: nat)
      requires Valid() && 0 < k <= n <= |q| && !Has(q[..k])
      ensures !Has(q[..n])
      decreases n
    {
      if k < n {
        NoneDeeper(q, k, n - 1);
        assert q[..n][..n - 1] == q[..n - 1];
        if Has(q[..n]) {
          HasParent(q[..n]);
        }
      }
    }

    lemma HasParent(p: seq<string>)
      requires Valid() && |p| > 0 && Has(p)
      ensures Has(p[..|p| - 1])
    {
      hide Path;
      var i :| 0 <= i < |paths| && paths[i] == p;
      assert paths[parent[i]] == p[..|p| - 1];
    }

    method AddChild(group: nat, name: string)
      requires Valid() && group < |names| && !Has(Path(name)) && paths[group] == Path(name)[..|Path(name)| - 1]
      modifies this
      ensures Valid() && paths == old(paths) + [Path(name)] && names == old(names) + [name]
    {
      hide Path, Shape, Links;
      ShapeGrows(names, parent, paths, group, name);
      LinksGrow(names, parent, paths, children, group);
      var c := |names|;
      names, parent := names + [name], parent + [group];
      children := children[group := children[group] + [c]] + [[]];
      paths := paths + [Path(name)];
    }

    /** Add one configured name, unless an ancestor is missing or it is there already. */
    method AddGroup(name: string) returns (added: bool)
      requires Valid()
      modifies this
      ensures Valid()
      ensures added <==> !old(Has(Path(name))) && old(Has(Path(name)[..|Path(name)| - 1]))
      ensures paths == if added then old(paths) + [Path(name)] else old(paths)
    {
      hide Path, Split, LowerAll, Shape, Links;
      var path := Split(name);
      SplitLower(name);
      assert Path(name) == LowerAll(path) by { PathIs(name); }
      var group := FindParent(path);
      if group.None? {
        return false;
      }
      ghost var q := Path(name);
      assert q == q[..|q| - 1] + [Lower(path[|path| - 1])];
      var child := FindChild(group.value, path[|path| - 1]);
      if child.Some? {
        return false;
      }
      AddChild(group.value, name);
      return true;
    }
  }

  lemma PathIs(name: string)
    ensures Path(name) == Split(Lower(name))
  {
  }

  /** The last component of a name, in lower case, ends its path. */
  lemma LeafOf(name: string)
    ensures Path(name)[|Path(name)| - 1] == Lower(Split(name)[|Split(name)| - 1])
  {
    hide Split, Lower;
    SplitLower(name);
  }

  /** Drop the reserved root name. */
  method DropReserved(config: seq<string>) returns (groups: seq<string>)
    ensures forall g :: g in groups <==> g in config && Lower(g) != Lower(ROOT_GROUP_NAME)
  {
    hide Lower;
    groups := [];
    for i := 0 to |config|
      invariant forall g :: g in groups <==> g in config[..i] && Lower(g) != Lower(ROOT_GROUP_NAME)
    {
      if Lower(config[i]) != Lower(ROOT_GROUP_NAME) {
        groups := groups + [config[i]];
      }
    }
  }

  /** A usable name of the configuration leads to this path. */
  ghost predicate Asked(config: seq<string>, p: seq<string>) {
    exists g :: g in config && Lower(g) != Lower(ROOT_GROUP_NAME) && Path(g) == p
  }

  /** Build the tree. A path gets a node exactly if it and all its ancestors are configured, so neither the order of
      the configuration nor repetitions in it matter. */
  method BuildGroupTree(config: seq<string>) returns (tree: Forest)
    ensures fresh(tree) && tree.Valid()
    ensures forall p :: tree.Has(p) <==> forall k :: 1 <= k <= |p| ==> Asked(config, p[..k])
  {
    hide Path, Lower, Sorted, Rooted, Shape, Links, Grows;
    var groups := DropReserved(config);
    groups := SortNames(groups);
    tree := new Forest();
    NothingGrown(groups);
    for n := 0 to |groups|
      invariant fresh(tree) && tree.Valid()
      invariant Grows(groups[..n], tree.paths)
    {
      ghost var was := tree.paths;
      var added := tree.AddGroup(groups[n]);
      TreeStep(groups, n, was, tree.paths, added);
    }
    assert groups[..|groups|] == groups;
    GrownAsAsked(groups, config, tree.paths);
  }

  lemma GrownAsAsked(groups: seq<string>, config: seq<string>, paths: seq<seq<string>>)
    requires Grows(groups, paths) && forall g :: g in groups <==> g in config && Lower(g) != Lower(ROOT_GROUP_NAME)
    ensures forall p :: Occurs(paths, p) <==> forall k :: 1 <= k <= |p| ==> Asked(config, p[..k])
  {
    hide Rooted, Occurs, Asked, Lower;
    forall p ensures Occurs(paths, p) <==> forall k :: 1 <= k <= |p| ==> Asked(config, p[..k]) {
      RootedIsAsked(groups, config, p);
    }
  }

  ghost predicate Occurs(paths: seq<seq<string>>, p: seq<string>) {
    exists i :: 0 <= i < |paths| && paths[i] == p
  }

  /** The nodes are the rooted paths, and the root. */
  ghost predicate Grows(names: seq<string>, paths: seq<seq<string>>) {
    forall p :: Occurs(paths, p) <==> Rooted(names, p)
  }

  lemma NothingGrown(groups: seq<string>)
    ensures Grows(groups[..0], [[]])
  {
    forall p: seq<string> ensures Occurs([[]], p) <==> Rooted(groups[..0], p) {
      if p == [] {
        assert [[]][0] == p;
      } else {
        assert !Configured(groups[..0], p[..1]);
      }
    }
  }

  lemma TreeStep(groups: seq<string>, n: nat, was: seq<seq<string>>, now: seq<seq<string>>, added: bool)
    requires Sorted(groups) && n < |groups| && Grows(groups[..n], was)
    requires var q := Path(groups[n]); added <==> !Occurs(was, q) && Occurs(was, q[..|q| - 1])
    requires now == if added then was + [Path(groups[n])] else was
    ensures Grows(groups[..n + 1], now)
  {
    hide Path, Sorted, Rooted, Occurs;
    forall p ensures Occurs(now, p) <==> Rooted(groups[..n + 1], p) {
      RootedStep(groups, n, p);
      Grown(was, now, Path(groups[n]), added, p);
    }
  }

  lemma Grown(was: seq<seq<string>>, now: seq<seq<string>>, q: seq<string>, added: bool, p: seq<string>)
    requires now == if added then was + [q] else was
    ensures Occurs(now, p) <==> Occurs(was, p) || (added && p == q)
  {
    if i :| 0 <= i < |was| && was[i] == p {
      assert now[i] == p;
    }
    if added && p == q {
      assert now[|was|] == p;
    }
  }

  lemma RootedIsAsked(groups: seq<string>, config: seq<string>, p: seq<string>)
    requires forall g :: g in groups <==> g in config && Lower(g) != Lower(ROOT_GROUP_NAME)
    ensures Rooted(groups, p) <==> forall k :: 1 <= k <= |p| ==> Asked(config, p[..k])
  {
    hide Path, Lower;
    forall q ensures Configured(groups, q) <==> Asked(config, q) {
      if g :| g in config && Lower(g) != Lower(ROOT_GROUP_NAME) && Path(g) == q {
        assert g in groups;
        var i :| 0 <= i < |groups| && groups[i] == g;
      }
    }
  }
}
