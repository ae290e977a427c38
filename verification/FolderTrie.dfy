/** The trie of source directories. */
module FolderTrie {
  import opened Text

  const ROOT_MESSAGES: string := "Root Messages"

  /** A node's path is the list of keys from the root; "Root Messages" has the empty key, which no
      directory component has. */
  datatype Node = Node(name: string, isRootMessages: bool, children: seq<Node>)

  function Key(n: Node): string {
    if n.isRootMessages then "" else n.name
  }

  /** The first child with a key, or the number of children when there is none. */
  function FindChild(children: seq<Node>, key: string): (k: nat)
    ensures k <= |children|
    ensures k < |children| ==> Key(children[k]) == key
    ensures forall j :: 0 <= j < k ==> Key(children[j]) != key
  {
    if children == [] || Key(children[0]) == key then 0
    else
      var k := FindChild(children[1..], key);
      assert forall j :: 0 < j <= k ==> children[j] == children[1..][j - 1];
      1 + k
  }

  /** Is there a node at this path below these children? */
  predicate HasPath(children: seq<Node>, path: seq<string>)
    decreases path
  {
    path != []
    && var k := FindChild(children, path[0]);
       k < |children| && (|path| == 1 || HasPath(children[k].children, path[1..]))
  }

  ghost predicate DistinctKeys(children: seq<Node>) {
    forall i, j :: 0 <= i < j < |children| ==> Key(children[i]) != Key(children[j])
  }

  ghost predicate NoRootMessages(children: seq<Node>) {
    forall c :: c in children ==> !c.isRootMessages
  }

  ghost predicate WellFormed(children: seq<Node>) {
    && DistinctKeys(children)
    && forall c :: c in children ==>
         if c.isRootMessages then c.children == [] && c.name == ROOT_MESSAGES
         else Clean(c.name) && WellFormed(c.children) && NoRootMessages(c.children)
  }

  function Size(children: seq<Node>): nat {
    if children == [] then 0 else 1 + Size(children[0].children) + Size(children[1..])
  }

  lemma {:induction false} SizeConcat(a: seq<Node>, b: seq<Node>)
    ensures Size(a + b) == Size(a) + Size(b)
  {
    if a == [] {
      assert a + b == b;
    } else {
      assert (a + b)[1..] == a[1..] + b;
      SizeConcat(a[1..], b);
    }
  }

  /** find_or_create_child along a whole path. */
  function Insert(children: seq<Node>, path: seq<string>): seq<Node>
    decreases path
  {
    if path == [] then children
    else
      var k := FindChild(children, path[0]);
      if k < |children|
      then children[k := children[k].(children := Insert(children[k].children, path[1..]))]
      else children + [Node(path[0], false, Insert([], path[1..]))]
  }

  lemma {:induction false} InsertKeepsForm(children: seq<Node>, path: seq<string>)
    requires WellFormed(children) && NoRootMessages(children) && AllClean(path)
    ensures WellFormed(Insert(children, path)) && NoRootMessages(Insert(children, path))
    decreases path
  {
    if path != [] {
      var k := FindChild(children, path[0]);
      if k < |children| {
        assert children[k] in children;
        InsertKeepsForm(children[k].children, path[1..]);
      } else {
        InsertKeepsForm([], path[1..]);
      }
    }
  }

  lemma {:induction false} FoundAt(children: seq<Node>, key: string, k: nat)
    requires k < |children| && Key(children[k]) == key && forall j :: 0 <= j < k ==> Key(children[j]) != key
    ensures FindChild(children, key) == k
  {
  }

  lemma {:induction false} NothingBelowNothing(q: seq<string>)
    ensures !HasPath([], q)
  {
  }

  /** Inserting a path adds its prefixes and nothing else. */
  lemma {:induction false} InsertAddsPrefixes(children: seq<Node>, path: seq<string>, q: seq<string>)
    requires AllClean(path)
    ensures HasPath(Insert(children, path), q) <==> HasPath(children, q) || (q != [] && q <= path)
    decreases path
  {
    if path != [] && q != [] {
      var k := FindChild(children, path[0]);
      var after := Insert(children, path);
      if q[0] == path[0] {
        FoundAt(after, q[0], k);
        assert q <= path <==> q[1..] <= path[1..];
        InsertAddsPrefixes(if k < |children| then children[k].children else [], path[1..], q[1..]);
        NothingBelowNothing(q[1..]);
      } else {
        assert !(q <= path);
        var o := FindChild(children, q[0]);
        if o < |children| {
          FoundAt(after, q[0], o);
        }
      }
    }
  }

  /** The same, by membership: the order of children with distinct keys does not matter. */
  lemma {:induction false} HasPathByMember(children: seq<Node>, path: seq<string>)
    requires DistinctKeys(children) && path != []
    ensures HasPath(children, path) <==>
      exists c :: c in children && Key(c) == path[0] && (|path| == 1 || HasPath(c.children, path[1..]))
  {
    var k := FindChild(children, path[0]);
    if k < |children| { assert children[k] in children; }
  }

  lemma {:induction false} HasPathOfPrefix(children: seq<Node>, path: seq<string>, prefix: seq<string>)
    requires HasPath(children, path) && prefix != [] && prefix <= path
    ensures HasPath(children, prefix)
    decreases path
  {
    if |prefix| > 1 {
      var k := FindChild(children, path[0]);
      HasPathOfPrefix(children[k].children, path[1..], prefix[1..]);
    }
  }
}
