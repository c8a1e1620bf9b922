/** The site map: a tree of nodes, one map of children each, grown in place. A ghost index from places to nodes
    says what the tree holds; the ids the tree widget asks for are tied to it. */
module SiteMap {
  import opened Words
  import opened UrlPath
  import opened NodeId
  import opened Wrappers
  import opened Sorting
  import Strings
  import HP = HostPort

  /** A place in the tree: a host:port key and the path segments below it. */
  datatype Place = Place(key: string, segs: seq<string>)

  datatype Transaction = Transaction(host: string, port: nat, url: string)

  function KeyOf(tx: Transaction): string { HostPortKey(tx.host, tx.port) }
  function SegsOf(tx: Transaction): seq<string> { SplitPath(TreePathOf(tx.url)) }

  /** The places of one transaction: every prefix of its path. */
  function Prefixes(key: string, segs: seq<string>, n: nat): set<Place>
    requires n <= |segs|
  {
    set i: nat | i <= n :: Place(key, segs[..i])
  }

  function PlacesOf(tx: Transaction): set<Place> { Prefixes(KeyOf(tx), SegsOf(tx), |SegsOf(tx)|) }

  function Root(key: string): Place { Place(key, []) }

  /** The place one segment below. */
  function Below(p: Place, s: string): Place { Place(p.key, p.segs + [s]) }

  /** The place one segment above. */
  function Parent(q: Place): Place
    requires q.segs != []
  {
    Place(q.key, q.segs[..|q.segs| - 1])
  }

  function Last(q: Place): string
    requires q.segs != []
  {
    q.segs[|q.segs| - 1]
  }

  /** A place has one parent and one last segment, and no root is below anything. */
  lemma BelowUnique()
    ensures forall p, s, q, t {:trigger Below(p, s), Below(q, t)} :: Below(p, s) == Below(q, t) ==> p == q && s == t
    ensures forall p, s, k {:trigger Below(p, s), Root(k)} :: Below(p, s) != Root(k)
    ensures forall p, s {:trigger Below(p, s)} :: Below(p, s) != p
  {
    assert forall p, s :: |Below(p, s).segs| == |p.segs| + 1;
    forall p, s, q, t | Below(p, s) == Below(q, t) ensures p == q && s == t {
      assert p.segs == Below(p, s).segs[..|p.segs|] && q.segs == Below(q, t).segs[..|q.segs|];
      assert Below(p, s).segs[|p.segs|] == s && Below(q, t).segs[|q.segs|] == t;
    }
  }

  lemma RootUnique()
    ensures forall k, l {:trigger Root(k), Root(l)} :: Root(k) == Root(l) ==> k == l
  {
  }

  class TreeNode {
    var children: map<string, TreeNode>

    constructor ()
      ensures children == map[]
    {
      children := map[];
    }
  }

  // ---- what the tree widget asks for, in terms of the places ----

  datatype Filters = Filters(scope: Option<string -> bool>, text: string)

  function DisplayHost(host: string, port: nat): string {
    if port == 0 || port == 80 || port == 443 then host else HostPortKey(host, port)
  }

  /** Whether a host is listed: in scope, and showing the filter's text. */
  predicate Listed(f: Filters, key: string) {
    var sp := HP.SplitHostPort(key);
    var h := if sp.HostPort? && sp.host != "" then sp.host else key;
    var port := if sp.HostPort? then Atoi(sp.port) else 0;
    && (f.scope.Some? ==> f.scope.value(h))
    && (f.text != "" ==> Strings.Find(ToLower(DisplayHost(h, port)), ToLower(f.text)) >= 0)
  }

  /** Which hosts a filter leaves: those in scope that show the text somewhere in their name, in either case; the
      default ports are not shown. */
  lemma ListedMeans(f: Filters, host: string, port: nat)
    requires host != "" && HP.NoBrackets(host)
    ensures var shown := if port in {0, 80, 443} then host else HostPortKey(host, port);
      Listed(f, HostPortKey(host, port)) <==>
        && (f.scope.Some? ==> f.scope.value(host))
        && (f.text != "" ==> exists i: nat :: Strings.At(ToLower(shown), ToLower(f.text), i))
  {
    hide HP.SplitHostPort, HP.JoinHostPort, Dec, Atoi, ToLower;
    DecPlain(port);
    HP.SplitJoin(host, Dec(port));
    var shown := if port in {0, 80, 443} then host else HostPortKey(host, port);
    assert DisplayHost(host, port) == shown;
    var at := Strings.Find(ToLower(shown), ToLower(f.text));
    assert at >= 0 <==> exists i: nat :: Strings.At(ToLower(shown), ToLower(f.text), i);
  }

  function NodePlace(n: Node): Place
    requires n.Node?
  {
    Place(HostPortKey(n.host, n.port), SplitPath(n.path))
  }

  function ChildId(n: Node, seg: string): string
    requires n.Node?
  {
    PathId(n.host, n.port, n.path + "/" + seg)
  }

  /** The child ids of a tree node when the tree has these places. */
  ghost function ChildIds(places: set<Place>, f: Filters, uid: string): set<string> {
    if uid == "" then set p | p in places && p == Root(p.key) && Listed(f, p.key) :: "h:" + p.key
    else
      var n := ParseNodeId(uid);
      if n.NoNode? then {}
      else set p | p in places && p.segs != [] && Parent(p) == NodePlace(n) :: ChildId(n, Last(p))
  }

  class SiteMap {
    var hosts: map<string, TreeNode>
    var filters: Filters
    ghost var at: map<Place, TreeNode>

    ghost function Places(): set<Place>
      reads this
    {
      at.Keys
    }

    ghost predicate RootsOk()
      reads this
    {
      forall k :: (k in hosts <==> Root(k) in at) && (k in hosts ==> hosts[k] == at[Root(k)])
    }

    ghost predicate Injective()
      reads this
    {
      forall p, q :: p in at && q in at && at[p] == at[q] ==> p == q
    }

    ghost predicate Closed()
      reads this
    {
      forall p, s :: Below(p, s) in at ==> p in at
    }

    ghost predicate ChildrenOk()
      reads this, at.Values
    {
      forall p, s :: p in at ==>
        && (s in at[p].children <==> Below(p, s) in at)
        && (s in at[p].children ==> at[p].children[s] == at[Below(p, s)])
    }

    /** The index and the tree agree: a child under a segment is the node of the longer place, and no node
        is used at two places. */
    ghost predicate Valid()
      reads this, at.Values
    {
      RootsOk() && Injective() && Closed() && ChildrenOk()
    }

    constructor ()
      ensures Valid() && Places() == {} && fresh(at.Values)
    {
      hosts := map[];
      filters := Filters(None, "");
      at := map[];
    }

    /** The node of a host, made if missing. */
    method HostNode(key: string) returns (node: TreeNode)
      requires Valid()
      modifies `hosts, `at
      ensures Valid() && fresh(at.Values - old(at.Values))
      ensures Places() == old(Places()) + {Root(key)} && node == at[Root(key)]
    {
      hide Below, Root;
      BelowUnique();
      RootUnique();
      if key !in hosts {
        var fresh_ := new TreeNode();
        hosts := hosts[key := fresh_];
        at := at[Root(key) := fresh_];
      }
      node := hosts[key];
    }

    method NewChild(node: TreeNode, ghost p: Place, seg: string) returns (child: TreeNode)
      requires Valid() && p in at && at[p] == node && seg !in node.children
      modifies this`at, node
      ensures Valid() && fresh(at.Values - old(at.Values))
      ensures Places() == old(Places()) + {Below(p, seg)} && child == at[Below(p, seg)]
    {
      hide Below, Root;
      BelowUnique();
      assert Below(p, seg) !in at;
      child := new TreeNode();
      assert child !in at.Values;
      node.children := node.children[seg := child];
      at := at[Below(p, seg) := child];
      assert RootsOk() && Closed() by { hide Injective, ChildrenOk; }
      assert Injective() by { hide Closed, ChildrenOk, RootsOk; }
    }

    /** The child of a node, made if missing. */
    method Child(node: TreeNode, ghost p: Place, seg: string) returns (child: TreeNode)
      requires Valid() && p in at && at[p] == node
      modifies this`at, node
      ensures Valid() && fresh(at.Values - old(at.Values))
      ensures Places() == old(Places()) + {Below(p, seg)} && child == at[Below(p, seg)]
    {
      hide Below, RootsOk, Closed, Injective;
      if seg !in node.children {
        child := NewChild(node, p, seg);
      } else {
        child := node.children[seg];
        assert at.Values - old(at.Values) == {};
      }
    }

    /** Adding a transaction adds its places and nothing else. */
    method Add(tx: Transaction)
      requires Valid()
      modifies `hosts, `at, at.Values
      ensures Valid() && fresh(at.Values - old(at.Values))
      ensures Places() == old(Places()) + PlacesOf(tx)
    {
      hide RootsOk, Injective, Closed, ChildrenOk, Prefixes, SplitPath, TreePathOf, HostPortKey;
      var key := HostPortKey(tx.host, tx.port);
      var node := HostNode(key);
      var segs := SplitPathLoop(TreePathOf(tx.url));
      PrefixNone(key, segs);
      for i := 0 to |segs|
        invariant Valid() && fresh(at.Values - old(at.Values))
        invariant Places() == old(Places()) + Prefixes(key, segs, i)
        invariant Place(key, segs[..i]) in at && node == at[Place(key, segs[..i])]
      {
        PrefixMore(key, segs, i);
        node := Child(node, Place(key, segs[..i]), segs[i]);
      }
    }

    /** Following the segments from a host's node; null when the tree has no such place. */
    method FindNode(key: string, segs: seq<string>) returns (node: TreeNode?)
      requires Valid()
      ensures node == null <==> Place(key, segs) !in Places()
      ensures node != null ==> node == at[Place(key, segs)]
    {
      hide Injective;
      PrefixNone(key, segs);
      if key !in hosts {
        MissingBelow(key, segs, 0);
        return null;
      }
      var cur := hosts[key];
      for i := 0 to |segs|
        invariant Place(key, segs[..i]) in at && cur == at[Place(key, segs[..i])]
      {
        PrefixMore(key, segs, i);
        if segs[i] !in cur.children {
          MissingBelow(key, segs, i + 1);
          return null;
        }
        cur := cur.children[segs[i]];
      }
      assert segs[..|segs|] == segs;
      return cur;
    }

    /** Nothing is below a place that is missing. */
    lemma {:induction false} MissingBelow(key: string, segs: seq<string>, n: nat)
      requires Closed() && n <= |segs| && Place(key, segs[..n]) !in at
      ensures Place(key, segs) !in at
      decreases |segs| - n
    {
      if n < |segs| {
        PrefixMore(key, segs, n);
        MissingBelow(key, segs, n + 1);
      } else {
        assert segs[..n] == segs;
      }
    }

    /** childUIDs: the sorted list of the child ids, each once. */
    method ChildUIDs(uid: string) returns (ids: seq<string>)
      requires Valid()
      ensures Ascending(ids) && Elems(ids) == ChildIds(Places(), filters, uid)
    {
      hide RootsOk, Injective, Closed, ChildrenOk, Listed, ParseNodeId, SplitPath;
      if uid == "" {
        ids := HostUIDs();
        return;
      }
      var n := ParseNodeId(uid);
      if n.NoNode? {
        return [];
      }
      var segs := SplitPathLoop(n.path);
      var node := FindNode(HostPortKey(n.host, n.port), segs);
      if node == null {
        NoChildren(NodePlace(n));
        return [];
      }
      ids := NodeUIDs(node, n);
    }

    lemma NoChildren(p: Place)
      requires Closed() && p !in at
      ensures forall q :: q in at && q.segs != [] ==> Parent(q) != p
    {
      forall q | q in at && q.segs != [] ensures Parent(q) != p {
        ParentOf(q);
      }
    }

    method HostUIDs() returns (ids: seq<string>)
      requires Valid()
      ensures Ascending(ids) && Elems(ids) == ChildIds(Places(), filters, "")
    {
      hide Injective, Closed, ChildrenOk, Listed, Ascending;
      ids := [];
      var rest := hosts.Keys;
      while rest != {}
        invariant rest <= hosts.Keys
        invariant Distinct(ids) && Elems(ids) == set k | k in hosts.Keys - rest && Listed(filters, k) :: "h:" + k
        decreases rest
      {
        var key :| key in rest;
        rest := rest - {key};
        var listed := ListedLoop(key);
        if listed {
          HostIdsDiffer(key);
          Append(ids, "h:" + key);
          ids := ids + ["h:" + key];
        }
      }
      ids := Sort(ids);
      forall x ensures x in Elems(ids) <==> x in ChildIds(Places(), filters, "") {
        if x in Elems(ids) {
          var k :| k in hosts.Keys && Listed(filters, k) && x == "h:" + k;
          assert Root(k) in at;
        }
      }
    }

    lemma HostIdsDiffer(key: string)
      ensures forall k: string :: "h:" + k == "h:" + key ==> k == key
    {
      forall k: string | "h:" + k == "h:" + key ensures k == key {
        assert k == ("h:" + k)[2..] && key == ("h:" + key)[2..];
      }
    }

    lemma ChildIdsDiffer(n: Node, seg: string)
      requires n.Node?
      ensures forall s :: ChildId(n, s) == ChildId(n, seg) ==> s == seg
    {
      hide HostPortKey;
      var front := "p:" + HostPortKey(n.host, n.port) + "|" + (n.path + "/");
      forall s | ChildId(n, s) == ChildId(n, seg) ensures s == seg {
        assert ChildId(n, s) == front + s && ChildId(n, seg) == front + seg;
        assert s == (front + s)[|front|..] && seg == (front + seg)[|front|..];
      }
    }

    method ListedLoop(key: string) returns (ok: bool)
      ensures ok <==> Listed(filters, key)
    {
      var sp := HP.SplitHostPort(key);
      var h, portStr := key, "";
      if sp.HostPort? {
        portStr := sp.port;
        if sp.host != "" {
          h := sp.host;
        }
      }
      if filters.scope.Some? && !filters.scope.value(h) {
        return false;
      }
      if filters.text != "" {
        var port := Atoi(portStr);
        var display := ToLower(DisplayHost(h, port));
        if Strings.Find(display, ToLower(filters.text)) < 0 {
          return false;
        }
      }
      return true;
    }

    method NodeUIDs(node: TreeNode, n: Node) returns (ids: seq<string>)
      requires Valid() && n.Node? && NodePlace(n) in at && node == at[NodePlace(n)]
      ensures Ascending(ids)
      ensures Elems(ids) ==
        set p | p in Places() && p.segs != [] && Parent(p) == NodePlace(n) :: ChildId(n, Last(p))
    {
      hide RootsOk, Injective, Closed, NodePlace, PathId, SplitPath, Ascending;
      ids := [];
      var rest := node.children.Keys;
      while rest != {}
        invariant rest <= node.children.Keys
        invariant Distinct(ids) && Elems(ids) == set s | s in node.children.Keys - rest :: ChildId(n, s)
        decreases rest
      {
        var seg :| seg in rest;
        rest := rest - {seg};
        var childPath;
        if n.path == "" {
          childPath := "/" + seg;
        } else {
          childPath := n.path + "/" + seg;
        }
        assert childPath == n.path + "/" + seg;
        assert ChildId(n, seg) == PathId(n.host, n.port, childPath);
        assert node.children.Keys - rest == (node.children.Keys - (rest + {seg})) + {seg};
        ChildIdsDiffer(n, seg);
        Append(ids, ChildId(n, seg));
        ids := ids + [PathId(n.host, n.port, childPath)];
      }
      ids := Sort(ids);
      var p := NodePlace(n);
      forall x
        ensures x in Elems(ids) <==> exists q :: q in at && q.segs != [] && Parent(q) == p && x == ChildId(n, Last(q))
      {
        if x in Elems(ids) {
          var s :| s in node.children && x == ChildId(n, s);
          ParentOf(Below(p, s));
          assert Below(p, s) in at;
        }
        if q :| q in at && q.segs != [] && Parent(q) == p && x == ChildId(n, Last(q)) {
          ParentOf(q);
          assert q == Below(p, Last(q));
        }
      }
    }

    /** A node other than the root is a branch exactly when it has children. */
    method IsBranch(uid: string) returns (r: bool)
      requires Valid()
      ensures r <==> uid == "" || ChildIds(Places(), filters, uid) != {}
    {
      hide RootsOk, Injective, Listed, ParseNodeId;
      if uid == "" {
        return true;
      }
      var n := ParseNodeId(uid);
      if n.NoNode? {
        return false;
      }
      var segs := SplitPathLoop(n.path);
      var node := FindNode(HostPortKey(n.host, n.port), segs);
      if node == null {
        NoChildren(NodePlace(n));
        return false;
      }
      ChildrenIffIds(node, n);
      assert (exists q :: q in at && q.segs != [] && Parent(q) == NodePlace(n)) <==>
             ChildIds(Places(), filters, uid) != {} by {
        if q :| q in at && q.segs != [] && Parent(q) == NodePlace(n) {
          assert ChildId(n, Last(q)) in ChildIds(Places(), filters, uid);
        }
      }
      return |node.children| > 0;
    }

    lemma ChildrenIffIds(node: TreeNode, n: Node)
      requires Valid() && n.Node? && NodePlace(n) in at && node == at[NodePlace(n)]
      ensures |node.children| > 0 <==> exists q :: q in at && q.segs != [] && Parent(q) == NodePlace(n)
    {
      hide RootsOk, Injective, Closed, NodePlace;
      var p := NodePlace(n);
      if |node.children| > 0 {
        var s :| s in node.children.Keys;
        ParentOf(Below(p, s));
        assert Below(p, s) in at;
      }
      if q :| q in at && q.segs != [] && Parent(q) == p {
        ParentOf(q);
        assert Last(q) in node.children;
        assert node.children.Keys != {};
      }
    }
  }

  /** Every place but a root is below its parent. */
  lemma ParentOf(q: Place)
    requires q.segs != []
    ensures var p := Parent(q); Below(p, Last(q)) == q
    ensures forall p, s {:trigger Below(p, s)} :: Below(p, s) == q ==> p == Parent(q) && s == Last(q)
  {
    BelowUnique();
    assert q.segs == q.segs[..|q.segs| - 1] + [Last(q)];
  }

  lemma PrefixNone(key: string, segs: seq<string>)
    ensures Prefixes(key, segs, 0) == {Root(key)} && Place(key, segs[..0]) == Root(key)
  {
    assert Prefixes(key, segs, 0) == {Place(key, segs[..0])};
  }

  lemma PrefixMore(key: string, segs: seq<string>, n: nat)
    requires n < |segs|
    ensures Below(Place(key, segs[..n]), segs[n]) == Place(key, segs[..n + 1])
    ensures Prefixes(key, segs, n + 1) == Prefixes(key, segs, n) + {Place(key, segs[..n + 1])}
  {
  }
}
