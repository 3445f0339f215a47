/**
 * A program block: its kind, string parameters and child blocks, plus the
 * editor's modification time. Block equality and hashing look at the first
 * three only.
 */
module CodeBlocks {
  import opened Int32s
  import opened BlockTypes

  datatype CodeBlock = CodeBlock(
    kind: BlockType,
    parameters: map<string, string>,
    children: seq<CodeBlock>,
    lastModified: int)

  /** A block built with the default arguments: no parameters and no children. */
  function NewBlock(kind: BlockType, now: int): CodeBlock {
    CodeBlock(kind, map[], [], now)
  }

  /** `CodeBlock.equals`: same kind, same parameters and pairwise equal children. */
  predicate Equals(a: CodeBlock, b: CodeBlock)
    decreases a
  {
    a.kind == b.kind && a.parameters == b.parameters && ListEquals(a.children, b.children)
  }

  /** `List.equals` on blocks: same length and pairwise `Equals`. */
  predicate ListEquals(xs: seq<CodeBlock>, ys: seq<CodeBlock>)
    decreases xs
  {
    |xs| == |ys| && forall i :: 0 <= i < |xs| ==> Equals(xs[i], ys[i])
  }

  /** The block with every modification time in it (at any depth) set to zero. */
  function Strip(a: CodeBlock): CodeBlock
    decreases a
  {
    CodeBlock(a.kind, a.parameters, StripAll(a.children), 0)
  }

  function StripAll(xs: seq<CodeBlock>): (r: seq<CodeBlock>)
    ensures |r| == |xs|
    decreases xs
  {
    if xs == [] then [] else [Strip(xs[0])] + StripAll(xs[1..])
  }

  /** Two blocks are equal exactly when they agree once modification times are ignored. */
  lemma {:induction false} EqualsIffStripped(a: CodeBlock, b: CodeBlock)
    ensures Equals(a, b) <==> Strip(a) == Strip(b)
    decreases a
  {
    ListEqualsIffStripped(a.children, b.children);
  }

  lemma {:induction false} ListEqualsIffStripped(xs: seq<CodeBlock>, ys: seq<CodeBlock>)
    ensures ListEquals(xs, ys) <==> StripAll(xs) == StripAll(ys)
    decreases xs
  {
    if xs != [] && ys != [] {
      EqualsIffStripped(xs[0], ys[0]);
      ListEqualsIffStripped(xs[1..], ys[1..]);
      assert StripAll(xs) == [Strip(xs[0])] + StripAll(xs[1..]);
      assert StripAll(ys) == [Strip(ys[0])] + StripAll(ys[1..]);
      if ListEquals(xs, ys) {
        assert ListEquals(xs[1..], ys[1..]) by {
          forall i | 0 <= i < |xs[1..]| ensures Equals(xs[1..][i], ys[1..][i]) {
            assert xs[1..][i] == xs[i + 1];
          }
        }
      }
      if StripAll(xs) == StripAll(ys) {
        assert StripAll(xs)[0] == Strip(xs[0]) && StripAll(ys)[0] == Strip(ys[0]);
        assert StripAll(xs)[1..] == StripAll(xs[1..]) && StripAll(ys)[1..] == StripAll(ys[1..]);
        forall i | 0 <= i < |xs| ensures Equals(xs[i], ys[i]) {
          if i > 0 {
            assert xs[1..][i - 1] == xs[i] && ys[1..][i - 1] == ys[i];
          }
        }
      }
    }
  }

  /** Reflexivity (the `this === other` shortcut agrees with the structural test). */
  lemma EqualsReflexive(a: CodeBlock)
    ensures Equals(a, a)
  {
    EqualsIffStripped(a, a);
  }

  lemma EqualsSymmetric(a: CodeBlock, b: CodeBlock)
    ensures Equals(a, b) ==> Equals(b, a)
  {
    EqualsIffStripped(a, b);
    EqualsIffStripped(b, a);
  }

  lemma EqualsTransitive(a: CodeBlock, b: CodeBlock, c: CodeBlock)
    ensures Equals(a, b) && Equals(b, c) ==> Equals(a, c)
  {
    EqualsIffStripped(a, b);
    EqualsIffStripped(b, c);
    EqualsIffStripped(a, c);
  }

  /** Default-built blocks are empty, and blocks built at different times compare equal. */
  lemma NewBlocksEqual(kind: BlockType, t1: int, t2: int)
    ensures NewBlock(kind, t1).parameters == map[] && NewBlock(kind, t1).children == []
    ensures Equals(NewBlock(kind, t1), NewBlock(kind, t2))
    ensures t1 != t2 ==> NewBlock(kind, t1) != NewBlock(kind, t2)
  {
  }

  // ---- hashCode ----

  function ToBits(x: Int32): bv32 {
    ((x as int + MODULUS) % MODULUS) as bv32
  }

  function Xor(a: Int32, b: Int32): Int32 {
    Wrap((ToBits(a) ^ ToBits(b)) as int)
  }

  /** `String.hashCode`: `h = 31 * h + c` over the characters, in wrapping arithmetic. */
  function StringHash(s: string): Int32 {
    if s == [] then 0 else Add(Mul(31, StringHash(s[..|s| - 1])), s[|s| - 1] as int)
  }

  /** `Map.hashCode`: the wrapping sum of `key.hashCode() xor value.hashCode()` over the entries. */
  ghost function MapHash(m: map<string, string>): Int32
    decreases m.Keys
  {
    if m == map[] then 0
    else
      var k :| k in m;
      Add(Xor(StringHash(k), StringHash(m[k])), MapHash(m - {k}))
  }

  /** `List.hashCode` on blocks: `h = 31 * h + e.hashCode()` starting from 1. */
  ghost function ListHash(xs: seq<CodeBlock>, kindHash: BlockType -> Int32): Int32
    decreases xs, 1
  {
    if xs == [] then 1
    else Add(Mul(31, ListHash(xs[..|xs| - 1], kindHash)), HashCode(xs[|xs| - 1], kindHash))
  }

  /**
   * `CodeBlock.hashCode`: the wrapping sum of the kind's hash, the parameters' hash
   * and the children's hash. The enum's hash is the JVM identity hash, fixed for a
   * run but not known in advance, so it is a parameter here.
   */
  ghost function HashCode(a: CodeBlock, kindHash: BlockType -> Int32): Int32
    decreases a, 2
  {
    Add(Add(kindHash(a.kind), MapHash(a.parameters)), ListHash(a.children, kindHash))
  }

  /** `hashCode` agrees with `equals`: equal blocks hash alike, whatever the enum hashes are. */
  lemma {:induction false} HashAgreesWithEquals(a: CodeBlock, b: CodeBlock, kindHash: BlockType -> Int32)
    requires Equals(a, b)
    ensures HashCode(a, kindHash) == HashCode(b, kindHash)
    decreases a, 1
  {
    ListHashAgrees(a.children, b.children, kindHash);
  }

  lemma {:induction false} ListHashAgrees(xs: seq<CodeBlock>, ys: seq<CodeBlock>, kindHash: BlockType -> Int32)
    requires ListEquals(xs, ys)
    ensures ListHash(xs, kindHash) == ListHash(ys, kindHash)
    decreases xs, 0
  {
    if xs != [] {
      var n := |xs| - 1;
      assert ListEquals(xs[..n], ys[..n]) by {
        forall i | 0 <= i < n ensures Equals(xs[..n][i], ys[..n][i]) {
          assert xs[..n][i] == xs[i] && ys[..n][i] == ys[i];
        }
      }
      ListHashAgrees(xs[..n], ys[..n], kindHash);
      HashAgreesWithEquals(xs[n], ys[n], kindHash);
    }
  }
}
