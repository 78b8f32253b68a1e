/**
 * A closed model of the Go syntax the signature helper inspects, and the
 * read-only collaborators (loader.Program, loader.PackageInfo) it queries.
 * Paths of enclosing nodes are sequences, innermost node first.
 */
module Ast {
  import opened Wrappers

  /** token.Pos: an offset into the program's file set; NoPos is zero. */
  type Pos = int

  const NoPos: Pos := 0

  /** token.Pos.IsValid */
  predicate IsValid(p: Pos) {
    p != NoPos
  }

  /** An *ast.Ident: a name at a position. */
  datatype Name = Name(name: string, pos: Pos)

  /** An *ast.Field: the names it declares (possibly none) sharing one type expression. */
  datatype Field = Field(names: seq<Name>, typ: Node)

  /**
   * The node kinds the handler tells apart. Every other node (a type
   * expression such as `[]int`, a literal, a statement) is `Other`, which
   * keeps an opaque identity standing for the node itself, so the injected
   * queries (`typeString`, `nodePos`, `nodeEnd`, `render`) may answer
   * differently for different such nodes.
   */
  datatype Node =
    | CallExpr(fun: Node, args: seq<Node>)
    | Ident(id: Name)
    | SelectorExpr(x: Node, sel: Name)
    | FuncDecl(recv: Option<seq<Field>>, name: Name, params: seq<Field>,
               results: Option<seq<Field>>, doc: Option<string>)
    | Other(node: int)

  /** A types.Object, as far as its declaration position. */
  datatype Object = Object(pos: Pos)

  /**
   * loader.Program, seen through three queries: PathEnclosingInterval, the
   * nodes' own Pos()/End(), and go/printer's rendering of a node (None when
   * the printer reports an error).
   */
  datatype Program = Program(
    enclosing: (Pos, Pos) -> seq<Node>,
    nodePos: Node -> Pos,
    nodeEnd: Node -> Pos,
    render: Node -> Option<string>)

  /** loader.PackageInfo: ObjectOf and the String() of TypeOf. */
  datatype Package = Package(
    objectOf: Name -> Option<Object>,
    typeString: Node -> string)
}
