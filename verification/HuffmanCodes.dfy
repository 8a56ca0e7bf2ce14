/** The codes read off a finished tree: they decode, and no code is a prefix of another. */
module HuffmanCodes {
  import opened Options
  import opened PrefixCodes
  import opened HuffmanTree

  /** Follows the bits of c from the root: 0 to the left child, 1 to the right one. A leaf has no children. */
  function Walk(m: Merges, c: Code): Option<nat>
    requires m.n >= 1 && |m.left| == |m.right| == m.n - 1
  {
    if c == [] then Some(m.Root())
    else
      match Walk(m, c[..|c| - 1])
      case None => None
      case Some(y) =>
        if y < m.n || y > m.Root() then None
        else if c[|c| - 1] == 0 then Some(m.left[y - m.n])
        else Some(m.right[y - m.n])
  }

  lemma WalkOneStep(m: Merges, c: Code, j: nat, b: Bit)
    requires m.n >= 1 && |m.left| == |m.right| == m.n - 1 && j < m.n - 1
    requires Walk(m, c) == Some(m.n + j)
    ensures Walk(m, c + [b]) == Some(if b == 0 then m.left[j] else m.right[j])
  {
    assert (c + [b])[..|c + [b]| - 1] == c;
  }

  lemma DecodeOneMore(m: Merges, parent: seq<nat>, binary: seq<Bit>, x: nat, c: Code)
    requires TreeOf(m, parent, binary) && x < m.Root()
    requires Walk(m, c) == Some(parent[x])
    ensures Walk(m, c + [binary[x]]) == Some(x)
  {
    var j := ParentStep(m, parent, binary, x);
    WalkOneStep(m, c, j, binary[x]);
  }

  /** Decoding the code of a node leads to that node. */
  lemma {:induction false} CodesDecode(m: Merges, parent: seq<nat>, binary: seq<Bit>, x: nat)
    requires TreeOf(m, parent, binary) && x <= m.Root()
    ensures Walk(m, CodeOf(parent, binary, m.Root(), x)) == Some(x)
    decreases m.Root() - x
  {
    if x < m.Root() {
      CodesDecode(m, parent, binary, parent[x]);
      DecodeOneMore(m, parent, binary, x, CodeOf(parent, binary, m.Root(), parent[x]));
    }
  }

  lemma {:induction false} NothingBelowLeaf(m: Merges, c: Code, d: Code)
    requires m.n >= 1 && |m.left| == |m.right| == m.n - 1
    requires Walk(m, c).Some? && Walk(m, c).value < m.n
    requires c <= d && c != d
    ensures Walk(m, d) == None
  {
    var e := d[..|d| - 1];
    if e != c {
      assert c <= e;
      NothingBelowLeaf(m, c, e);
    }
  }

  /** Codes of different leaves: neither is a prefix of the other. */
  lemma LeafCodesApart(m: Merges, parent: seq<nat>, binary: seq<Bit>, x: nat, y: nat)
    requires TreeOf(m, parent, binary) && x < m.n && y < m.n && x != y
    ensures !(CodeOf(parent, binary, m.Root(), x) <= CodeOf(parent, binary, m.Root(), y))
  {
    CodesDecode(m, parent, binary, x);
    CodesDecode(m, parent, binary, y);
    var c, d := CodeOf(parent, binary, m.Root(), x), CodeOf(parent, binary, m.Root(), y);
    if c <= d && c != d {
      NothingBelowLeaf(m, c, d);
    }
  }

  /** Every prefix of a node's code is the code of the node reached on the way. */
  lemma {:induction false} PrefixIsCodeOnPath(parent: seq<nat>, binary: seq<Bit>, root: nat, x: nat, k: nat)
    requires Rooted(parent, root) && x <= root && |binary| == |parent|
    requires k < Depth(parent, root, x)
    ensures PathTo(parent, root, x)[k] <= root
    ensures CodeOf(parent, binary, root, x)[..k + 1] == CodeOf(parent, binary, root, PathTo(parent, root, x)[k])
    decreases root - x
  {
    var c := CodeOf(parent, binary, root, x);
    if k == |c| - 1 {
      assert c[..k + 1] == c;
    } else {
      PrefixIsCodeOnPath(parent, binary, root, parent[x], k);
      assert c[..k + 1] == CodeOf(parent, binary, root, parent[x])[..k + 1];
    }
  }

  /** All nodes on a path, save its last, are inner nodes. */
  lemma {:induction false} PathIsInner(m: Merges, parent: seq<nat>, binary: seq<Bit>, x: nat, k: nat)
    requires TreeOf(m, parent, binary) && x <= m.Root()
    requires k + 1 < Depth(parent, m.Root(), x)
    ensures m.n <= PathTo(parent, m.Root(), x)[k] < m.Root()
    decreases m.Root() - x
  {
    var p := parent[x];
    var j := ParentStep(m, parent, binary, x);
    if k + 1 == Depth(parent, m.Root(), p) {
      assert PathTo(parent, m.Root(), x)[k] == p;
    } else {
      PathIsInner(m, parent, binary, p, k);
    }
  }

  /** The label of a word: its code and the inner nodes passed, numbered from 0. */
  datatype HuffLabelInfo = HuffLabelInfo(codelen: nat, code: Code, point: seq<int>)

  /** The label for a code and the path (root left out, leaf last) it follows. */
  ghost function LabelFrom(code: Code, path: seq<nat>, n: nat): HuffLabelInfo
    requires path != []
  {
    HuffLabelInfo(|path|, code, [n - 2] + seq(|path| - 1, k requires 0 <= k < |path| - 1 => path[k] - n))
  }

  ghost function LabelOf(parent: seq<nat>, binary: seq<Bit>, n: nat, a: nat): HuffLabelInfo
    requires n >= 2 && a < n && Rooted(parent, 2 * n - 2) && |binary| == |parent|
  {
    LabelFrom(CodeOf(parent, binary, 2 * n - 2, a), PathTo(parent, 2 * n - 2, a), n)
  }

  function Codes(labels: seq<HuffLabelInfo>): (c: seq<Code>)
    ensures |c| == |labels| && forall i :: 0 <= i < |labels| ==> c[i] == labels[i].code
  {
    seq(|labels|, i requires 0 <= i < |labels| => labels[i].code)
  }

  /** The inner node at place k of a label is the one reached by the first k bits of the code. */
  lemma NodeOfPrefix(m: Merges, parent: seq<nat>, binary: seq<Bit>, a: nat, k: nat, info: HuffLabelInfo)
    returns (x: nat)
    requires TreeOf(m, parent, binary) && a < m.n
    requires info == LabelOf(parent, binary, m.n, a)
    requires k < |info.code|
    ensures k < |info.point| == |info.code| == info.codelen
    ensures m.n <= x <= m.Root() && info.point[k] == x - m.n
    ensures info.code[..k] == CodeOf(parent, binary, m.Root(), x)
    ensures Walk(m, info.code[..k]) == Some(x)
  {
    if k == 0 {
      x := m.Root();
    } else {
      x := PathTo(parent, m.Root(), a)[k - 1];
      PrefixIsCodeOnPath(parent, binary, m.Root(), a, k - 1);
      PathIsInner(m, parent, binary, a, k - 1);
      CodesDecode(m, parent, binary, x);
    }
  }
}
