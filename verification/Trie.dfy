/**
  The domain trie: one node per suffix of labels, with separate slots for a strict-domain
  rule and for a namespace rule, the first insertion winning each slot.

  A node is identified with the path it stands for; `nodes` is that map, kept as ghost
  state, so the tree needs no recursive invariant.
 */
module Trie {
  import opened Text

  /** What a rule routes to. */
  type Data = nat

  /** A suffix of labels, the leftmost on top. */
  datatype Path = Top | Under(first: string, parent: Path)

  function PathOf(labels: seq<string>): Path
  {
    if labels == [] then Top else Under(labels[0], PathOf(labels[1..]))
  }

  class TrieNode {
    var children: map<string, TrieNode>
    var isExactEnd: bool
    var exactData: Data
    var isNamespaceEnd: bool
    var namespaceData: Data
    ghost const path: Path

    constructor (ghost q: Path)
      ensures path == q && children == map[] && !isExactEnd && !isNamespaceEnd
    {
      path := q;
      children := map[];
      isExactEnd, isNamespaceEnd := false, false;
      exactData, namespaceData := 0, 0;
    }
  }

  datatype Kind = KindExact | KindNamespace

  datatype Match = Match(data: Data, kind: Kind)

  type Slots = map<Path, Data>

  /** The longest suffix of labels with a namespace rule. */
  function LongestNamespace(namespaces: Slots, q: Path): Option<Match>
  {
    match q
    case Top => None
    case Under(_, parent) =>
      if q in namespaces then Some(Match(namespaces[q], KindNamespace)) else LongestNamespace(namespaces, parent)
  }

  function Best(exact: Slots, namespaces: Slots, q: Path): Option<Match>
  {
    if q in exact then Some(Match(exact[q], KindExact)) else LongestNamespace(namespaces, q)
  }

  /** The first entry for a key stays. */
  function Keeping(m: Slots, q: Path, data: Data): Slots
  {
    if q in m then m else m[q := data]
  }

  class Trie {
    const root: TrieNode
    ghost var nodes: map<Path, TrieNode>
    ghost var Repr: set<TrieNode>
    /** The rules inserted so far. */
    ghost var exact: Slots
    ghost var namespaces: Slots

    /** The node for `q` has the children that `nodes` has under `q`; a suffix has a node
        when a longer one does. */
    ghost predicate Placed(q: Path)
      requires q in nodes
      reads this, Repr
    {
      && nodes[q] in Repr && nodes[q].path == q && (q.Under? ==> q.parent in nodes)
      && (forall p {:trigger p in nodes[q].children} {:trigger Under(p, q)} ::
            p in nodes[q].children <==> Under(p, q) in nodes)
      && (forall p | p in nodes[q].children :: nodes[q].children[p] == nodes[Under(p, q)])
    }

    ghost predicate SlotsAgree(q: Path)
      requires q in nodes
      reads this, nodes[q]
    {
      && nodes[q].isExactEnd == (q in exact) && (q in exact ==> nodes[q].exactData == exact[q])
      && nodes[q].isNamespaceEnd == (q in namespaces)
      && (q in namespaces ==> nodes[q].namespaceData == namespaces[q])
    }

    ghost predicate NodeFine(q: Path)
      requires q in nodes
      reads this, Repr, nodes[q]
    {
      Placed(q) && SlotsAgree(q)
    }

    ghost predicate Valid()
      reads this, Repr
    {
      && Top in nodes && nodes[Top] == root && exact.Keys <= nodes.Keys && namespaces.Keys <= nodes.Keys
      && nodes.Values <= Repr
      && (forall q {:trigger NodeFine(q)} | q in nodes :: NodeFine(q))
    }

    lemma NodesApart(q: Path)
      requires Valid() && q in nodes
      ensures forall x | x in nodes && x != q :: nodes[x] != nodes[q]
    {
      assert NodeFine(q);
      forall x | x in nodes && x != q
        ensures nodes[x] != nodes[q]
      {
        assert NodeFine(x);
      }
    }

    constructor ()
      ensures Valid() && exact == map[] && namespaces == map[] && fresh(Repr)
    {
      var r := new TrieNode(Top);
      root := r;
      nodes := map[Top := r];
      Repr := {r};
      exact, namespaces := map[], map[];
    }

    /** The child for `part`, created if it is missing. */
    method Child(node: TrieNode, part: string) returns (child: TrieNode)
      requires Valid() && node.path in nodes && nodes[node.path] == node
      modifies this`nodes, this`Repr, node
      ensures Valid() && exact == old(exact) && namespaces == old(namespaces)
      ensures child.path == Under(part, node.path) && child.path in nodes && nodes[child.path] == child
      ensures fresh(Repr - old(Repr))
    {
      assert NodeFine(node.path);
      if part in node.children {
        assert NodeFine(Under(part, node.path));
        return node.children[part];
      }
      NodesApart(node.path);
      child := new TrieNode(Under(part, node.path));
      Link(node, part, child);
    }

    method Link(node: TrieNode, part: string, child: TrieNode)
      requires Valid() && node.path in nodes && nodes[node.path] == node
      requires child !in Repr && child.path == Under(part, node.path) && child.path !in nodes
      requires child.children == map[] && !child.isExactEnd && !child.isNamespaceEnd
      requires forall x | x in nodes && x != node.path :: nodes[x] != node
      modifies this`nodes, this`Repr, node`children
      ensures Valid() && nodes == old(nodes)[child.path := child] && Repr == old(Repr) + {child}
    {
      NothingBelow(child.path);
      node.children, nodes, Repr := node.children[part := child], nodes[child.path := child], Repr + {child};
      forall q | q in nodes
        ensures NodeFine(q)
      {
        if q != child.path {
          assert old(NodeFine(q));
        }
      }
    }

    lemma NothingBelow(q: Path)
      requires Valid() && q !in nodes
      ensures forall p :: Under(p, q) !in nodes
    {
      forall x | x in nodes
        ensures x.Under? ==> x.parent in nodes
      {
        assert NodeFine(x);
      }
    }

    /** The node for a path, created with all above it. */
    method Descend(parts: seq<string>) returns (node: TrieNode)
      requires Valid()
      modifies this`nodes, this`Repr, Repr
      ensures Valid() && exact == old(exact) && namespaces == old(namespaces) && fresh(Repr - old(Repr))
      ensures node.path == PathOf(parts) && node.path in nodes && nodes[node.path] == node
    {
      node := root;
      assert NodeFine(Top);
      var i := |parts|;
      while i > 0
        invariant 0 <= i <= |parts|
        invariant Valid() && exact == old(exact) && namespaces == old(namespaces) && fresh(Repr - old(Repr))
        invariant node.path == PathOf(parts[i..]) && node.path in nodes && nodes[node.path] == node
      {
        i := i - 1;
        PathOfSuffix(parts, i);
        node := Child(node, parts[i]);
      }
      assert parts[0..] == parts;
    }

    /** The first insertion into a slot stays. */
    method Insert(domain: string, data: Data, isExact: bool)
      requires Valid()
      modifies this, Repr
      ensures Valid() && fresh(Repr - old(Repr))
      ensures exact == if isExact then Keeping(old(exact), DomainPath(domain), data) else old(exact)
      ensures namespaces == if isExact then old(namespaces) else Keeping(old(namespaces), DomainPath(domain), data)
    {
      var parts := Split(domain, '.');
      var node := Descend(parts);
      NodesApart(node.path);
      assert NodeFine(node.path);
      if isExact {
        if !node.isExactEnd {
          SetExact(node, data);
        }
      } else {
        if !node.isNamespaceEnd {
          SetNamespace(node, data);
        }
      }
    }

    method SetExact(node: TrieNode, data: Data)
      requires Valid() && node.path in nodes && nodes[node.path] == node
      requires forall x | x in nodes && x != node.path :: nodes[x] != node
      modifies this`exact, node`isExactEnd, node`exactData
      ensures Valid() && exact == old(exact)[node.path := data]
    {
      node.isExactEnd, node.exactData, exact := true, data, exact[node.path := data];
      forall q | q in nodes
        ensures NodeFine(q)
      {
        assert old(NodeFine(q));
      }
    }

    method SetNamespace(node: TrieNode, data: Data)
      requires Valid() && node.path in nodes && nodes[node.path] == node
      requires forall x | x in nodes && x != node.path :: nodes[x] != node
      modifies this`namespaces, node`isNamespaceEnd, node`namespaceData
      ensures Valid() && namespaces == old(namespaces)[node.path := data]
    {
      node.isNamespaceEnd, node.namespaceData, namespaces := true, data, namespaces[node.path := data];
      forall q | q in nodes
        ensures NodeFine(q)
      {
        assert old(NodeFine(q));
      }
    }

    /** Walks down label by label, remembering the last namespace rule passed. */
    method SearchExplain(domain: string) returns (found: Option<Match>)
      requires Valid()
      ensures found == Best(exact, namespaces, DomainPath(domain))
    {
      var parts := Split(domain, '.');
      var node := root;
      assert NodeFine(Top);
      found := None;
      var i := |parts|;
      while i > 0
        invariant 0 <= i <= |parts| && Reached(node, parts, i, found)
        invariant i == 0 ==> found == Best(exact, namespaces, PathOf(parts))
      {
        i := i - 1;
        StepDown(node, parts, i, found);
        if parts[i] !in node.children {
          return;
        }
        node := node.children[parts[i]];
        if node.isNamespaceEnd {
          found := Some(Match(node.namespaceData, KindNamespace));
        }
        if i == 0 && node.isExactEnd {
          return Some(Match(node.exactData, KindExact));
        }
      }
    }

    /** The walk is at the node of the labels from `i` on, with the namespace found for them. */
    ghost predicate Reached(node: TrieNode, parts: seq<string>, i: nat, found: Option<Match>)
      reads this, node
    {
      && i <= |parts| && node.path == PathOf(parts[i..]) && node.path in nodes && nodes[node.path] == node
      && found == LongestNamespace(namespaces, PathOf(parts[i..]))
    }

    lemma StepDown(node: TrieNode, parts: seq<string>, i: nat, found: Option<Match>)
      requires Valid() && i < |parts| && Reached(node, parts, i + 1, found)
      ensures if parts[i] !in node.children then found == Best(exact, namespaces, PathOf(parts))
              else
                var next := node.children[parts[i]];
                var now := if next.isNamespaceEnd then Some(Match(next.namespaceData, KindNamespace)) else found;
                && Reached(next, parts, i, now)
                && (i == 0 ==> Best(exact, namespaces, PathOf(parts)) ==
                               if next.isExactEnd then Some(Match(next.exactData, KindExact)) else now)
    {
      ChildAt(node, parts, i);
      if parts[i] !in node.children {
        MissingSuffix(parts, i);
      } else if i == 0 {
        assert parts[0..] == parts;
      }
    }

    /** The child for a label, and what it holds. */
    lemma ChildAt(node: TrieNode, parts: seq<string>, i: nat)
      requires Valid() && i < |parts| && node.path == PathOf(parts[i + 1..])
      requires node.path in nodes && nodes[node.path] == node
      ensures var q := PathOf(parts[i..]);
              && q == Under(parts[i], node.path)
              && (parts[i] in node.children <==> q in nodes)
              && (q in nodes ==> node.children[parts[i]] == nodes[q] && nodes[q].path == q
                                 && nodes[q].isExactEnd == (q in exact)
                                   && (q in exact ==> nodes[q].exactData == exact[q])
                                 && nodes[q].isNamespaceEnd == (q in namespaces)
                                 && (q in namespaces ==> nodes[q].namespaceData == namespaces[q]))
    {
      PathOfSuffix(parts, i);
      assert NodeFine(node.path);
      if PathOf(parts[i..]) in nodes {
        assert NodeFine(PathOf(parts[i..]));
      }
    }

    /** If a suffix is missing, so is every longer one. */
    lemma {:induction false} MissingSuffix(parts: seq<string>, i: nat)
      requires Valid() && i < |parts| && PathOf(parts[i..]) !in nodes
      ensures PathOf(parts) !in exact
      ensures Best(exact, namespaces, PathOf(parts)) == LongestNamespace(namespaces, PathOf(parts[i + 1..]))
      decreases i
    {
      PathOfSuffix(parts, i);
      if i == 0 {
        assert parts[0..] == parts;
      } else {
        PathOfSuffix(parts, i - 1);
        NothingBelow(PathOf(parts[i..]));
        MissingSuffix(parts, i - 1);
      }
    }
  }

  function DomainPath(domain: string): Path { PathOf(Split(domain, '.')) }

  lemma PathOfSuffix(parts: seq<string>, i: nat)
    requires i < |parts|
    ensures PathOf(parts[i..]) == Under(parts[i], PathOf(parts[i + 1..]))
  {
    assert parts[i..][0] == parts[i] && parts[i..][1..] == parts[i + 1..];
  }

  lemma {:induction false} PathOfIsInjective(a: seq<string>, b: seq<string>)
    requires PathOf(a) == PathOf(b)
    ensures a == b
  {
    if a != [] && b != [] {
      PathOfIsInjective(a[1..], b[1..]);
      assert a == [a[0]] + a[1..] && b == [b[0]] + b[1..];
    }
  }
}
