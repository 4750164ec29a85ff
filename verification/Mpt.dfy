/** The Merkle-Patricia inclusion proof of spec/tools/check.py, over an abstract hash. */
module Mpt {
  import opened Bytes
  import opened Rlp
  import opened RlpTolerant

  type nibble = n: int | 0 <= n < 16

  function Nibbles(b: Bytes): (ns: seq<nibble>)
    ensures |ns| == 2 * |b|
  {
    if b == [] then [] else [b[0] / 16, b[0] % 16] + Nibbles(b[1..])
  }

  // ------------------------------------------------------------------ the verifier

  /**
   * How a verification ends. `Missing` and `Absent` both answer None: the next node is not in the proof, or the key is
   * not in the trie.
   */
  datatype Outcome = Raises | Missing | Absent | Found(value: Item)

  /** What one node says about the path from `depth` on: the end, or the next node and where it starts. */
  datatype Turn = Stop(outcome: Outcome) | Go(want: Bytes, depth: nat)

  function Wanted(child: Item): Bytes {
    if child.Str? then child.bytes else Encode(child)
  }

  function AtNode(nodeRlp: Bytes, path: seq<nibble>, depth: nat): Turn
    requires depth <= |path|
  {
    match RlpDecode(nodeRlp)
    case Err => Stop(Raises)
    case Ok(node) =>
      if node.Str? then Stop(Absent)
      else if |node.items| == 17 then AtBranch(node.items, path, depth)
      else if |node.items| == 2 then AtShort(node.items[0], node.items[1], path, depth)
      else Stop(Absent)
  }

  function AtBranch(items: seq<Item>, path: seq<nibble>, depth: nat): Turn
    requires |items| == 17 && depth <= |path|
  {
    if depth == |path| then
      if items[16].Str? && items[16].bytes != [] then Stop(Found(items[16])) else Stop(Absent)
    else
      var child := items[path[depth]];
      if child == Str([]) then Stop(Absent) else Go(Wanted(child), depth + 1)
  }

  function AtShort(first: Item, second: Item, path: seq<nibble>, depth: nat): Turn
    requires depth <= |path|
  {
    if first.List? || first.bytes == [] then Stop(Raises) else
      var enc := Nibbles(first.bytes);
      var seg := if enc[0] % 2 == 1 then enc[1..] else enc[2..];
      if !(seg <= path[depth..]) then Stop(Absent)
      else if enc[0] >= 2 then Stop(if depth + |seg| == |path| then Found(second) else Absent)
      else Go(Wanted(second), depth + |seg|)
  }

  /** The node that follows is strictly shorter than the one that names it. */
  lemma NextIsShorter(nodeRlp: Bytes, path: seq<nibble>, depth: nat)
    requires depth <= |path| && AtNode(nodeRlp, path, depth).Go?
    ensures |AtNode(nodeRlp, path, depth).want| < |nodeRlp|
    ensures AtNode(nodeRlp, path, depth).depth <= |path|
  {
    hide RlpDecode, Nibbles, Encode, EncodeAll;
    var node := RlpDecode(nodeRlp).value;
    RlpDecodeShortest(nodeRlp, node);
    var j := if |node.items| == 17 then path[depth] else 1;
    PartIsShorter(node.items, j);
    WantedIsShort(node.items[j]);
  }

  lemma {:induction false} EncodingOfPart(xs: seq<Item>, j: nat)
    requires j < |xs|
    ensures |Encode(xs[j])| <= |EncodeAll(xs)|
  {
    if j > 0 {
      EncodingOfPart(xs[1..], j - 1);
    }
  }

  lemma PartIsShorter(xs: seq<Item>, j: nat)
    requires j < |xs|
    ensures |Encode(xs[j])| < |Encode(List(xs))|
  {
    hide Header;
    EncodingOfPart(xs, j);
  }

  lemma WantedIsShort(x: Item)
    ensures |Wanted(x)| <= |Encode(x)|
  {
  }

  /** The rest of a verification that wants node `want` for the path from `depth` on, with the proof read up to `i`. */
  function Get(hash: Bytes -> Bytes, want: Bytes, depth: nat, i: nat, path: seq<nibble>, proof: seq<Bytes>): Outcome
    requires depth <= |path| && i <= |proof|
    decreases |proof| - i, |want|
  {
    if |want| == 32 then
      if i >= |proof| || hash(proof[i]) != want then Missing else
        match AtNode(proof[i], path, depth)
        case Stop(outcome) => outcome
        case Go(w, d) => NextIsShorter(proof[i], path, depth); Get(hash, w, d, i + 1, path, proof)
    else
      match AtNode(want, path, depth)
      case Stop(outcome) => outcome
      case Go(w, d) => NextIsShorter(want, path, depth); Get(hash, w, d, i, path, proof)
  }

  /** The value under `key`; none when the proof does not reach one. */
  method MptGet(hash: Bytes -> Bytes, root: Bytes, key: Bytes, proof: seq<Bytes>) returns (r: Result<Option<Item>>)
    ensures r == match Get(hash, root, 0, 0, Nibbles(key), proof)
                 case Raises => Err case Found(v) => Ok(Some(v)) case _ => Ok(None)
  {
    hide AtNode;
    var path := Nibbles(key);
    var want, depth, i: nat := root, 0, 0;
    while true
      invariant depth <= |path| && i <= |proof|
      invariant Get(hash, want, depth, i, path, proof) == Get(hash, root, 0, 0, path, proof)
      decreases |proof| - i, |want|
    {
      var nodeRlp := want;
      if |want| == 32 {
        if i >= |proof| || hash(proof[i]) != want {
          return Ok(None);
        }
        nodeRlp := proof[i];
        i := i + 1;
      }
      match AtNode(nodeRlp, path, depth)
      case Stop(outcome) =>
        return match outcome case Raises => Err case Found(v) => Ok(Some(v)) case _ => Ok(None);
      case Go(w, d) =>
        NextIsShorter(nodeRlp, path, depth);
        want, depth := w, d;
    }
  }

  // ---------------------------------------------------------------------- binding

  /** No node of one proof shares its hash with a different node of the other. */
  ghost predicate NoCollision(hash: Bytes -> Bytes, p: seq<Bytes>, q: seq<Bytes>) {
    forall a, b :: a in p && b in q && hash(a) == hash(b) ==> a == b
  }

  /** Two verifications of the same root and key that are never short of a node end alike. */
  lemma {:induction false} Agree(hash: Bytes -> Bytes, want: Bytes, depth: nat, path: seq<nibble>, p: seq<Bytes>,
      i: nat, q: seq<Bytes>, j: nat)
    requires depth <= |path| && i <= |p| && j <= |q| && NoCollision(hash, p, q)
    requires Get(hash, want, depth, i, path, p) != Missing && Get(hash, want, depth, j, path, q) != Missing
    ensures Get(hash, want, depth, i, path, p) == Get(hash, want, depth, j, path, q)
    decreases |p| - i, |want|
  {
    hide AtNode;
    if |want| == 32 {
      assert p[i] == q[j];
      if AtNode(p[i], path, depth).Go? {
        var next := AtNode(p[i], path, depth);
        NextIsShorter(p[i], path, depth);
        Agree(hash, next.want, next.depth, path, p, i + 1, q, j + 1);
      }
    } else if AtNode(want, path, depth).Go? {
      var next := AtNode(want, path, depth);
      NextIsShorter(want, path, depth);
      Agree(hash, next.want, next.depth, path, p, i, q, j);
    }
  }

  /** Two proofs of the same root and key that both give a value give the same value. */
  lemma OneValue(hash: Bytes -> Bytes, root: Bytes, key: Bytes, p: seq<Bytes>, q: seq<Bytes>)
    requires NoCollision(hash, p, q)
    requires Get(hash, root, 0, 0, Nibbles(key), p).Found? && Get(hash, root, 0, 0, Nibbles(key), q).Found?
    ensures Get(hash, root, 0, 0, Nibbles(key), p) == Get(hash, root, 0, 0, Nibbles(key), q)
  {
    hide Get, Nibbles;
    Agree(hash, root, 0, Nibbles(key), p, 0, q, 0);
  }

  // ------------------------------------------------------------ the trie it is about

  datatype Trie =
    | Leaf(seg: seq<nibble>, value: Bytes)
    | Ext(seg: seq<nibble>, child: Trie)
    | Branch(children: seq<Child>, value: Bytes)

  datatype Child = NoChild | Sub(t: Trie)

  /** The value the trie keeps under a path. A branch whose value is empty keeps none there. */
  function Lookup(t: Trie, path: seq<nibble>): Option<Bytes> {
    match t
    case Leaf(seg, value) => if path == seg then Some(value) else None
    case Ext(seg, child) => if seg <= path then Lookup(child, path[|seg|..]) else None
    case Branch(children, value) =>
      if path == [] then (if value != [] then Some(value) else None)
      else if path[0] < |children| && children[path[0]].Sub? then Lookup(children[path[0]].t, path[1..])
      else None
  }

  function Pack(ns: seq<nibble>): Bytes {
    if |ns| < 2 then [] else
      var high: int := ns[0];
      [16 * high + ns[1]] + Pack(ns[2..])
  }

  /** The hex-prefix form of a path segment (Yellow Paper, appendix C). */
  function HexPrefix(seg: seq<nibble>, leaf: bool): Bytes {
    var flag := if leaf then 2 else 0;
    if |seg| % 2 == 1 then Pack([flag + 1] + seg) else Pack([flag, 0] + seg)
  }

  /** A node as RLP; a child whose encoding is 32 bytes or more stands as its hash (Yellow Paper, appendix D). */
  function NodeItem(hash: Bytes -> Bytes, t: Trie): Item
    decreases t, 1
  {
    match t
    case Leaf(seg, value) => List([Str(HexPrefix(seg, true)), Str(value)])
    case Ext(seg, child) => List([Str(HexPrefix(seg, false)), Ref(hash, child)])
    case Branch(children, value) => List(Refs(hash, children) + [Str(value)])
  }

  function Ref(hash: Bytes -> Bytes, t: Trie): Item
    decreases t, 2
  {
    var e := Encode(NodeItem(hash, t));
    if |e| < 32 then NodeItem(hash, t) else Str(hash(e))
  }

  function ChildRef(hash: Bytes -> Bytes, c: Child): Item
    decreases c, 0
  {
    match c
    case NoChild => Str([])
    case Sub(t) => Ref(hash, t)
  }

  function Refs(hash: Bytes -> Bytes, children: seq<Child>): (refs: seq<Item>)
    ensures |refs| == |children|
    ensures forall k :: 0 <= k < |children| ==> refs[k] == ChildRef(hash, children[k])
    decreases children, 0
  {
    if children == [] then [] else [ChildRef(hash, children[0])] + Refs(hash, children[1..])
  }

  ghost predicate Hash32(hash: Bytes -> Bytes) {
    forall x :: |hash(x)| == 32
  }

  /** Sixteen children in every branch, and no node too long for RLP. */
  ghost predicate Sound(hash: Bytes -> Bytes, t: Trie) {
    && Fits(NodeItem(hash, t))
    && match t
       case Leaf(_, _) => true
       case Ext(_, child) => Sound(hash, child)
       case Branch(children, _) => |children| == 16 && forall k :: 0 <= k < 16 && children[k].Sub? ==>
         Sound(hash, children[k].t)
  }

  /** The hashed nodes a lookup passes below `t`, in order. */
  function Below(hash: Bytes -> Bytes, t: Trie, path: seq<nibble>): seq<Bytes>
    decreases t, 1
  {
    match t
    case Leaf(_, _) => []
    case Ext(seg, child) => if seg <= path then From(hash, child, path[|seg|..]) else []
    case Branch(children, _) =>
      if path != [] && path[0] < |children| && children[path[0]].Sub? then From(hash, children[path[0]].t, path[1..])
      else []
  }

  function From(hash: Bytes -> Bytes, t: Trie, path: seq<nibble>): seq<Bytes>
    decreases t, 2
  {
    var e := Encode(NodeItem(hash, t));
    if |e| < 32 then Below(hash, t, path) else [e] + Below(hash, t, path)
  }

  /** The honest proof of what `t` keeps under `key`. */
  function Proof(hash: Bytes -> Bytes, t: Trie, key: Bytes): seq<Bytes> {
    [Encode(NodeItem(hash, t))] + Below(hash, t, Nibbles(key))
  }

  function Answer(v: Option<Bytes>): Outcome {
    if v.Some? then Found(Str(v.value)) else Absent
  }

  // --------------------------------------------------------------- segments, packed

  /** Each byte's two nibbles, the high one first. */
  lemma {:induction false} NibblesAre(b: Bytes, k: nat)
    requires k < |b|
    ensures 16 * (Nibbles(b)[2 * k] as int) + Nibbles(b)[2 * k + 1] as int == b[k]
  {
    if k > 0 {
      NibblesAre(b[1..], k - 1);
    }
  }

  lemma {:induction false} PackUnpacks(ns: seq<nibble>)
    requires |ns| % 2 == 0
    ensures Nibbles(Pack(ns)) == ns
  {
    if |ns| >= 2 {
      PackUnpacks(ns[2..]);
      assert Pack(ns)[1..] == Pack(ns[2..]);
      assert ns == [ns[0], ns[1]] + ns[2..];
    }
  }

  lemma HexPrefixReads(seg: seq<nibble>, leaf: bool)
    ensures var enc := Nibbles(HexPrefix(seg, leaf));
            HexPrefix(seg, leaf) != [] && enc != [] && (enc[0] >= 2 <==> leaf)
            && (if enc[0] % 2 == 1 then enc[1..] else enc[2..]) == seg
  {
    hide Nibbles;
    var flag := if leaf then 2 else 0;
    PackUnpacks(if |seg| % 2 == 1 then [flag + 1] + seg else [flag, 0] + seg);
  }

  // ------------------------------------------------- the honest proof, and any proof

  /** What the verifier does at the trie's own encoding of a node is what the trie does there. */
  lemma AtHonest(hash: Bytes -> Bytes, t: Trie, path: seq<nibble>, depth: nat)
    requires depth <= |path| && Sound(hash, t) && Hash32(hash)
    ensures AtNode(Encode(NodeItem(hash, t)), path, depth) ==
            match t
            case Leaf(seg, value) => Stop(if path[depth..] == seg then Found(Str(value)) else Absent)
            case Ext(seg, child) =>
              if seg <= path[depth..] then Go(Wanted(Ref(hash, child)), depth + |seg|) else Stop(Absent)
            case Branch(children, value) =>
              if depth == |path| then Stop(if value != [] then Found(Str(value)) else Absent)
              else if children[path[depth]].Sub? then Go(Wanted(Ref(hash, children[path[depth]].t)), depth + 1)
              else Stop(Absent)
  {
    hide RlpDecode, Encode, HexPrefix, Fits, Nibbles, Ref;
    var x := NodeItem(hash, t);
    RlpDecodeInverts(x);
    match t {
      case Leaf(seg, value) => HexPrefixReads(seg, true);
      case Ext(seg, child) => HexPrefixReads(seg, false);
      case Branch(children, value) =>
        if depth < |path| && children[path[depth]].Sub? {
          RefNotEmpty(hash, children[path[depth]].t);
        }
    }
  }

  /** A child stands as its own node when that is short, and as a hash otherwise; never as no child. */
  lemma RefNotEmpty(hash: Bytes -> Bytes, t: Trie)
    requires Hash32(hash)
    ensures var e := Encode(NodeItem(hash, t));
            && Ref(hash, t) != Str([])
            && Wanted(Ref(hash, t)) == (if |e| < 32 then e else hash(e))
  {
    hide Encode;
    assert NodeItem(hash, t).List?;
  }

  /** The verification from a turn on. */
  ghost function After(hash: Bytes -> Bytes, turn: Turn, i: nat, path: seq<nibble>, proof: seq<Bytes>): Outcome
    requires turn.Go? ==> turn.depth <= |path|
    requires i <= |proof|
  {
    match turn
    case Stop(outcome) => outcome
    case Go(want, depth) => Get(hash, want, depth, i, path, proof)
  }

  lemma GetUnfolds(hash: Bytes -> Bytes, e: Bytes, depth: nat, i: nat, path: seq<nibble>, proof: seq<Bytes>)
    requires depth <= |path| && i <= |proof| && Hash32(hash)
    ensures AtNode(e, path, depth).Go? ==> AtNode(e, path, depth).depth <= |path|
    ensures |e| != 32 ==> Get(hash, e, depth, i, path, proof) == After(hash, AtNode(e, path, depth), i, path, proof)
    ensures i < |proof| && proof[i] == e ==>
      Get(hash, hash(e), depth, i, path, proof) == After(hash, AtNode(e, path, depth), i + 1, path, proof)
  {
    hide AtNode;
    if AtNode(e, path, depth).Go? {
      NextIsShorter(e, path, depth);
    }
  }

  /** With the trie's own nodes at hand, the verifier ends where the lookup ends. */
  lemma {:induction false} HonestBelow(hash: Bytes -> Bytes, t: Trie, depth: nat, i: nat, path: seq<nibble>,
      proof: seq<Bytes>)
    requires depth <= |path| && i <= |proof| && Sound(hash, t) && Hash32(hash)
    requires proof[i..] == Below(hash, t, path[depth..])
    ensures var turn := AtNode(Encode(NodeItem(hash, t)), path, depth);
            (turn.Go? ==> turn.depth <= |path|) && After(hash, turn, i, path, proof) == Answer(Lookup(t, path[depth..]))
    decreases t, 1
  {
    hide AtNode, Encode, NodeItem, Get, Fits, Ref;
    AtHonest(hash, t, path, depth);
    var rest := path[depth..];
    match t {
      case Leaf(seg, value) =>
      case Ext(seg, child) =>
        if seg <= rest {
          assert rest[|seg|..] == path[depth + |seg|..];
          HonestFrom(hash, child, depth + |seg|, i, path, proof);
        }
      case Branch(children, value) =>
        if depth < |path| && children[path[depth]].Sub? {
          assert rest[0] == path[depth] && rest[1..] == path[depth + 1..];
          HonestFrom(hash, children[path[depth]].t, depth + 1, i, path, proof);
        }
    }
  }

  lemma {:induction false} HonestFrom(hash: Bytes -> Bytes, t: Trie, depth: nat, i: nat, path: seq<nibble>,
      proof: seq<Bytes>)
    requires depth <= |path| && i <= |proof| && Sound(hash, t) && Hash32(hash)
    requires proof[i..] == From(hash, t, path[depth..])
    ensures Get(hash, Wanted(Ref(hash, t)), depth, i, path, proof) == Answer(Lookup(t, path[depth..]))
    decreases t, 2
  {
    hide AtNode, Encode, NodeItem, Get, Fits, Ref, Wanted, Below, Sound, Lookup;
    var e := Encode(NodeItem(hash, t));
    RefNotEmpty(hash, t);
    GetUnfolds(hash, e, depth, i, path, proof);
    if |e| < 32 {
      HonestBelow(hash, t, depth, i, path, proof);
    } else {
      assert proof[i] == proof[i..][0] == e;
      assert proof[i + 1..] == proof[i..][1..] == Below(hash, t, path[depth..]);
      HonestBelow(hash, t, depth, i + 1, path, proof);
    }
  }

  /** The honest proof of a key gives what the trie keeps under it, its absence included. */
  lemma HonestProof(hash: Bytes -> Bytes, t: Trie, key: Bytes)
    requires Sound(hash, t) && Hash32(hash)
    ensures Get(hash, hash(Encode(NodeItem(hash, t))), 0, 0, Nibbles(key), Proof(hash, t, key)) ==
      Answer(Lookup(t, Nibbles(key)))
  {
    hide AtNode, Encode, NodeItem, Get, Fits, Ref, Below, Sound, Lookup, Nibbles;
    var e, path, proof := Encode(NodeItem(hash, t)), Nibbles(key), Proof(hash, t, key);
    assert path[0..] == path && proof[1..] == Below(hash, t, path);
    GetUnfolds(hash, e, 0, 0, path, proof);
    HonestBelow(hash, t, 0, 1, path, proof);
  }

  /**
   * Whatever proof reaches a value under the trie's root, it is the value the trie keeps there, unless two nodes
   * collide.
   */
  lemma AnyProof(hash: Bytes -> Bytes, t: Trie, key: Bytes, proof: seq<Bytes>)
    requires Sound(hash, t) && Hash32(hash) && NoCollision(hash, proof, Proof(hash, t, key))
    ensures var got := Get(hash, hash(Encode(NodeItem(hash, t))), 0, 0, Nibbles(key), proof);
            got == Missing || got == Answer(Lookup(t, Nibbles(key)))
  {
    hide AtNode, Encode, NodeItem, Get, Fits, Ref, Below, Sound, Lookup, Nibbles, NoCollision;
    var root := hash(Encode(NodeItem(hash, t)));
    HonestProof(hash, t, key);
    if Get(hash, root, 0, 0, Nibbles(key), proof) != Missing {
      Agree(hash, root, 0, Nibbles(key), proof, 0, Proof(hash, t, key), 0);
    }
  }
}
