/** The eight kinds of program block and their display names. */
module BlockTypes {

  datatype BlockType =
    | VariableDeclaration
    | Assignment
    | ArithmeticOperation
    | IfStatement
    | IfElseStatement
    | WhileLoop
    | ArrayDeclaration
    | ArrayAccess

  /** The kinds in declaration order (the enum's `entries`). */
  const AllKinds: seq<BlockType> := [VariableDeclaration, Assignment, ArithmeticOperation,
    IfStatement, IfElseStatement, WhileLoop, ArrayDeclaration, ArrayAccess]

  function DisplayName(kind: BlockType): string {
    match kind
    case VariableDeclaration => "Variable Declaration"
    case Assignment => "Assignment"
    case ArithmeticOperation => "Arithmetic Operation"
    case IfStatement => "If Statement"
    case IfElseStatement => "If-Else Statement"
    case WhileLoop => "While Loop"
    case ArrayDeclaration => "Array Declaration"
    case ArrayAccess => "Array Access"
  }

  /** The enum's `ordinal`: the position of a kind in `AllKinds`. */
  function Ordinal(kind: BlockType): (n: nat)
    ensures n < |AllKinds| && AllKinds[n] == kind
  {
    match kind
    case VariableDeclaration => 0
    case Assignment => 1
    case ArithmeticOperation => 2
    case IfStatement => 3
    case IfElseStatement => 4
    case WhileLoop => 5
    case ArrayDeclaration => 6
    case ArrayAccess => 7
  }

  /** There are exactly eight kinds: `AllKinds` lists each of them once. */
  lemma ExactlyEightKinds()
    ensures |AllKinds| == 8
    ensures forall i, j :: 0 <= i < j < |AllKinds| ==> AllKinds[i] != AllKinds[j]
    ensures forall k: BlockType :: k in AllKinds
  {
    forall k: BlockType ensures k in AllKinds {
      assert AllKinds[Ordinal(k)] == k;
    }
  }

  /** Every display name is a non-empty fixed string, and no two kinds share one. */
  lemma DisplayNameInjective(a: BlockType, b: BlockType)
    ensures |DisplayName(a)| > 0
    ensures DisplayName(a) == DisplayName(b) ==> a == b
  {
    if a != b {
      assert DisplayName(a) != DisplayName(b) by {
        match a
        case VariableDeclaration => assert DisplayName(a)[0] == 'V';
        case Assignment => assert DisplayName(a)[1] == 's';
        case ArithmeticOperation => assert DisplayName(a)[1] == 'r';
        case IfStatement => assert |DisplayName(a)| == 12;
        case IfElseStatement => assert DisplayName(a)[2] == '-';
        case WhileLoop => assert DisplayName(a)[0] == 'W';
        case ArrayDeclaration => assert DisplayName(a)[6] == 'D';
        case ArrayAccess => assert DisplayName(a)[6] == 'A';
      }
    }
  }
}
