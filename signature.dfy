/**
 * Signature help (langserver/signature.go): find the call around the cursor,
 * resolve its callee to a declaration, list the parameters as "name type"
 * labels, splice them into the rendered declaration and pick the parameter to
 * highlight.
 */
module Signature {
  import opened Wrappers
  import opened Strings
  import opened Ast

  // ---------------------------------------------------------------------------
  // First-match search over an enclosing path (the loops of callExpr, ident,
  // funcDecl and funcInfo)
  // ---------------------------------------------------------------------------

  /** `i` is the first index of `s` whose element satisfies `p`. */
  ghost predicate IsFirst<T>(s: seq<T>, p: T -> bool, i: int) {
    0 <= i < |s| && p(s[i]) && forall j :: 0 <= j < i ==> !p(s[j])
  }

  function FirstIndex<T>(s: seq<T>, p: T -> bool): (r: Option<nat>)
    ensures r.None? <==> forall i :: 0 <= i < |s| ==> !p(s[i])
    ensures r.Some? ==> IsFirst(s, p, r.value)
  {
    if |s| == 0 then None
    else if p(s[0]) then Some(0)
    else
      match FirstIndex(s[1..], p)
      case None => None
      case Some(k) => Some(k + 1)
  }

  /** `r` is the first node of `path` satisfying `p`, or None when there is none. */
  ghost predicate FirstMatch(path: seq<Node>, p: Node -> bool, r: Option<Node>) {
    && (r.None? <==> forall i :: 0 <= i < |path| ==> !p(path[i]))
    && (r.Some? ==> exists i :: IsFirst(path, p, i) && path[i] == r.value)
  }

  function FirstNode(path: seq<Node>, p: Node -> bool): (r: Option<Node>)
    ensures FirstMatch(path, p, r)
  {
    match FirstIndex(path, p)
    case None => None
    case Some(i) => Some(path[i])
  }

  predicate IsCallExpr(n: Node) {
    n.CallExpr?
  }

  predicate IsFuncDecl(n: Node) {
    n.FuncDecl?
  }

  /** callExpr: the innermost call expression on the path. */
  function CallExprOf(path: seq<Node>): (r: Option<Node>)
    ensures FirstMatch(path, IsCallExpr, r)
    ensures r.Some? ==> r.value.CallExpr?
  {
    FirstNode(path, IsCallExpr)
  }

  // ---------------------------------------------------------------------------
  // ident and funcDecl
  // ---------------------------------------------------------------------------

  /** ident looks at no more than this many innermost path entries. */
  const IdentDepth: nat := 4

  /** A node that names a callee: a bare identifier or a selector `x.Sel`. */
  predicate NamesCallee(n: Node) {
    n.Ident? || n.SelectorExpr?
  }

  /** The identifier itself, or the selected name of a selector. */
  function CalleeName(n: Node): Name
    requires NamesCallee(n)
  {
    if n.Ident? then n.id else n.sel
  }

  /**
   * The search of ident over an enclosing path: the first identifier or
   * selector among the first IdentDepth entries.
   */
  function FirstIdent(path: seq<Node>): (r: Option<Name>)
    ensures r.None? <==> forall i :: 0 <= i < |path| && i < IdentDepth ==> !NamesCallee(path[i])
    ensures r.Some? ==> exists i :: i < IdentDepth && IsFirst(path, NamesCallee, i) && r.value == CalleeName(path[i])
  {
    var window := if |path| <= IdentDepth then path else path[..IdentDepth];
    match FirstIndex(window, NamesCallee)
    case None => None
    case Some(i) =>
      assert forall j :: 0 <= j <= i ==> window[j] == path[j];
      assert IsFirst(path, NamesCallee, i);
      Some(CalleeName(window[i]))
  }

  /** Entries past the first IdentDepth never change what ident finds. */
  lemma IdentLooksNoDeeper(path: seq<Node>, tail: seq<Node>)
    requires |path| >= IdentDepth
    ensures FirstIdent(path + tail) == FirstIdent(path)
  {
    assert (path + tail)[..IdentDepth] == path[..IdentDepth];
  }

  /** ident: the callee name of `node`, searched on the path enclosing its extent. */
  function IdentOf(prog: Program, node: Node): (r: Option<Name>)
    ensures var path := prog.enclosing(prog.nodePos(node), prog.nodeEnd(node));
            && (r.None? <==> forall i :: 0 <= i < |path| && i < IdentDepth ==> !NamesCallee(path[i]))
            && (r.Some? ==> exists i :: i < IdentDepth && IsFirst(path, NamesCallee, i) && r.value == CalleeName(path[i]))
  {
    FirstIdent(prog.enclosing(prog.nodePos(node), prog.nodeEnd(node)))
  }

  /** The object the callee's name denotes, kept only when its position is valid. */
  function DeclaredObject(prog: Program, pkg: Package, call: Node): (r: Option<Object>)
    requires call.CallExpr?
    ensures r.Some? ==> IsValid(r.value.pos)
    ensures r.Some? <==> IdentOf(prog, call.fun).Some? && pkg.objectOf(IdentOf(prog, call.fun).value).Some?
                          && IsValid(pkg.objectOf(IdentOf(prog, call.fun).value).value.pos)
    ensures r.Some? ==> r.value == pkg.objectOf(IdentOf(prog, call.fun).value).value
  {
    match IdentOf(prog, call.fun)
    case None => None
    case Some(id) =>
      match pkg.objectOf(id)
      case None => None
      case Some(o) => if IsValid(o.pos) then Some(o) else None
  }

  /**
   * funcDecl: nothing without a callee name, an object for it, or a valid
   * position; otherwise the innermost FuncDecl around the object's position.
   */
  function FuncDeclOf(prog: Program, pkg: Package, call: Node): (r: Option<Node>)
    requires call.CallExpr?
    ensures r.Some? ==> r.value.FuncDecl?
    ensures IdentOf(prog, call.fun).None? ==> r.None?
    ensures IdentOf(prog, call.fun).Some? && pkg.objectOf(IdentOf(prog, call.fun).value).None? ==> r.None?
    ensures DeclaredObject(prog, pkg, call).None? ==> r.None?
    ensures DeclaredObject(prog, pkg, call).Some? ==>
              var o := DeclaredObject(prog, pkg, call).value;
              FirstMatch(prog.enclosing(o.pos, o.pos), IsFuncDecl, r)
  {
    match DeclaredObject(prog, pkg, call)
    case None => None
    case Some(o) => FirstNode(prog.enclosing(o.pos, o.pos), IsFuncDecl)
  }

  // ---------------------------------------------------------------------------
  // parametersAsString
  // ---------------------------------------------------------------------------

  function Label(name: Name, typ: string): string {
    name.name + " " + typ
  }

  /** The labels one field contributes: one per name, all with the field's type string. */
  function FieldLabels(f: Field, typ: string): seq<string> {
    seq(|f.names|, k requires 0 <= k < |f.names| => Label(f.names[k], typ))
  }

  /** The labels of a parameter list, field by field and name by name. */
  function Labels(fields: seq<Field>, typeString: Node -> string): (r: seq<string>)
    ensures |r| == NameCount(fields)
  {
    if fields == [] then []
    else FieldLabels(fields[0], typeString(fields[0].typ)) + Labels(fields[1..], typeString)
  }

  /** The number of names the fields declare. */
  function NameCount(fields: seq<Field>): nat {
    if fields == [] then 0 else |fields[0].names| + NameCount(fields[1..])
  }

  lemma {:induction false} LabelsConcat(a: seq<Field>, b: seq<Field>, typeString: Node -> string)
    ensures Labels(a + b, typeString) == Labels(a, typeString) + Labels(b, typeString)
  {
    if a == [] {
      assert a + b == b;
    } else {
      assert (a + b)[0] == a[0];
      assert (a + b)[1..] == a[1..] + b;
      LabelsConcat(a[1..], b, typeString);
    }
  }

  lemma LabelsSingle(f: Field, typeString: Node -> string)
    ensures Labels([f], typeString) == FieldLabels(f, typeString(f.typ))
  {
    assert [f][1..] == [];
  }

  /** Appending a field appends its labels. */
  lemma LabelsSnoc(fields: seq<Field>, typeString: Node -> string, i: nat)
    requires i < |fields|
    ensures Labels(fields[..i + 1], typeString)
            == Labels(fields[..i], typeString) + FieldLabels(fields[i], typeString(fields[i].typ))
  {
    assert fields[..i + 1] == fields[..i] + [fields[i]];
    LabelsConcat(fields[..i], [fields[i]], typeString);
    LabelsSingle(fields[i], typeString);
  }

  /** The labels of the fields before `i`, then those of field `i`, then the rest. */
  lemma LabelsAround(fields: seq<Field>, typeString: Node -> string, i: nat)
    requires i < |fields|
    ensures Labels(fields, typeString)
            == Labels(fields[..i], typeString)
               + (FieldLabels(fields[i], typeString(fields[i].typ)) + Labels(fields[i + 1..], typeString))
  {
    SplitAt(fields, i);
    LabelsConcat(fields[..i], [fields[i]] + fields[i + 1..], typeString);
    LabelsCons(fields[i], fields[i + 1..], typeString);
  }

  lemma SplitAt<T>(s: seq<T>, i: nat)
    requires i < |s|
    ensures s == s[..i] + ([s[i]] + s[i + 1..])
  {
  }

  lemma LabelsCons(f: Field, rest: seq<Field>, typeString: Node -> string)
    ensures Labels([f] + rest, typeString) == FieldLabels(f, typeString(f.typ)) + Labels(rest, typeString)
  {
    assert ([f] + rest)[0] == f && ([f] + rest)[1..] == rest;
  }

  /**
   * Label positions: name `j` of field `i` is labelled "name type" and comes
   * after the labels of every earlier field.
   */
  lemma LabelsAt(fields: seq<Field>, typeString: Node -> string, i: nat, j: nat)
    requires i < |fields| && j < |fields[i].names|
    ensures NameCount(fields[..i]) + j < |Labels(fields, typeString)|
    ensures Labels(fields, typeString)[NameCount(fields[..i]) + j]
            == fields[i].names[j].name + " " + typeString(fields[i].typ)
  {
    LabelsAround(fields, typeString, i);
    var tail := FieldLabels(fields[i], typeString(fields[i].typ)) + Labels(fields[i + 1..], typeString);
    assert tail[j] == Label(fields[i].names[j], typeString(fields[i].typ));
  }

  /** A field without names (an unnamed parameter) contributes no label. */
  lemma LabelsSkipUnnamed(a: seq<Field>, f: Field, b: seq<Field>, typeString: Node -> string)
    requires f.names == []
    ensures Labels(a + [f] + b, typeString) == Labels(a + b, typeString)
  {
    LabelsConcat(a + [f], b, typeString);
    LabelsConcat(a, [f], typeString);
    LabelsConcat(a, b, typeString);
    LabelsSingle(f, typeString);
  }

  /** parametersAsString, with its nested append loop. */
  method ParametersAsString(fields: seq<Field>, pkg: Package) returns (labels: seq<string>)
    ensures labels == Labels(fields, pkg.typeString)
  {
    labels := [];
    for i := 0 to |fields|
      invariant labels == Labels(fields[..i], pkg.typeString)
    {
      var field := fields[i];
      var t := pkg.typeString(field.typ);
      ghost var before := labels;
      for j := 0 to |field.names|
        invariant labels == before + FieldLabels(field, t)[..j]
      {
        labels := labels + [field.names[j].name + " " + t];
      }
      assert FieldLabels(field, t)[..|field.names|] == FieldLabels(field, t);
      LabelsSnoc(fields, pkg.typeString, i);
    }
    assert fields[..|fields|] == fields;
  }

  // ---------------------------------------------------------------------------
  // funcInfo and the placeholder splice
  // ---------------------------------------------------------------------------

  /** The empty parameter list the declaration is rendered with. */
  const Placeholder: string := "()"

  /**
   * The first `()` of the rendering replaced by the labels joined with `", "`
   * in parentheses (`strings.Replace` with a count of 1).
   */
  function Splice(rendered: string, parameters: seq<string>): (r: string)
    ensures !Contains(rendered, Placeholder) ==> r == rendered
    ensures |r| == |rendered| + (if Contains(rendered, Placeholder) then |Join(parameters, ", ")| else 0)
  {
    ReplaceFirst(rendered, Placeholder, "(" + Join(parameters, ", ") + ")")
  }

  /** The splice is empty exactly when the rendering was. */
  lemma SpliceEmpty(rendered: string, parameters: seq<string>)
    ensures Splice(rendered, parameters) == "" <==> rendered == ""
  {
    match Index(rendered, Placeholder)
    case None =>
    case Some(i) =>
      var rep := "(" + Join(parameters, ", ") + ")";
      assert |Splice(rendered, parameters)| == i + |rep| + (|rendered| - i - 2);
  }

  /** Without parameters the placeholder is replaced by itself. */
  lemma SpliceNoParameters(rendered: string)
    ensures Splice(rendered, []) == rendered
  {
    match Index(rendered, Placeholder)
    case None =>
    case Some(i) =>
      assert "(" + Join([], ", ") + ")" == rendered[i..i + 2];
      assert rendered[..i] + rendered[i..i + 2] + rendered[i + 2..] == rendered;
  }

  /**
   * With the first placeholder at `i`, the labels and their ", " separators
   * take its place, and label `k` appears verbatim in the display signature
   * after "(" and the labels before it.
   */
  lemma SpliceLabelAt(rendered: string, parameters: seq<string>, i: nat, k: nat)
    requires OccursAt(rendered, Placeholder, i)
    requires forall j :: 0 <= j < i ==> !OccursAt(rendered, Placeholder, j)
    requires k < |parameters|
    ensures Splice(rendered, parameters)
            == rendered[..i] + ("(" + Join(parameters, ", ") + ")") + rendered[i + 2..]
    ensures OccursAt(Splice(rendered, parameters), parameters[k], i + 1 + JoinOffset(parameters, ", ", k))
  {
    var joined := Join(parameters, ", ");
    ReplaceFirstAt(rendered, Placeholder, "(" + joined + ")", i);
    JoinAt(parameters, ", ", k);
    Reassociate(rendered[..i], joined, rendered[i + 2..]);
    OccursAtShift(rendered[..i] + "(", joined, ")" + rendered[i + 2..], parameters[k], JoinOffset(parameters, ", ", k));
  }

  lemma Reassociate(pre: string, joined: string, post: string)
    ensures pre + ("(" + joined + ")") + post == (pre + "(") + joined + (")" + post)
  {
  }

  /** The declaration printed for the label: no parameters, no body, no doc. */
  function Clone(decl: Node): (r: Node)
    requires decl.FuncDecl?
    ensures r.FuncDecl? && r.params == [] && r.doc == None
    ensures r.recv == decl.recv && r.name == decl.name && r.results == decl.results
  {
    FuncDecl(decl.recv, decl.name, [], decl.results, None)
  }

  /**
   * The rendered declaration depends on the receiver, name and results only:
   * parameters and doc comment never reach the printer.
   */
  lemma CloneIgnoresParametersAndDoc(prog: Program, a: Node, b: Node)
    requires a.FuncDecl? && b.FuncDecl?
    requires a.recv == b.recv && a.name == b.name && a.results == b.results
    ensures NodeAsString(prog, Clone(a)) == NodeAsString(prog, Clone(b))
  {
  }

  /** nodeAsString: the printer's output, or "" when printing fails. */
  function NodeAsString(prog: Program, node: Node): (r: string)
    ensures prog.render(node).None? ==> r == ""
    ensures prog.render(node).Some? ==> r == prog.render(node).value
  {
    match prog.render(node)
    case None => ""
    case Some(s) => s
  }

  function DocText(decl: Node): string
    requires decl.FuncDecl?
  {
    match decl.doc
    case None => ""
    case Some(text) => text
  }

  /**
   * The declaration funcInfo describes: that of the first call on the path
   * enclosing the start of `fun`.
   */
  function CalleeDecl(prog: Program, pkg: Package, fun: Node): (r: Option<Node>)
    ensures r.Some? ==> r.value.FuncDecl?
    ensures var path := prog.enclosing(prog.nodePos(fun), prog.nodePos(fun));
            && ((forall i :: 0 <= i < |path| ==> !IsCallExpr(path[i])) ==> r.None?)
            && (forall i :: IsFirst(path, IsCallExpr, i) ==> r == FuncDeclOf(prog, pkg, path[i]))
  {
    match CallExprOf(prog.enclosing(prog.nodePos(fun), prog.nodePos(fun)))
    case None => None
    case Some(call) => FuncDeclOf(prog, pkg, call)
  }

  datatype Info = Info(signature: string, parameters: seq<string>, documentation: string)

  /** funcInfo: display signature, parameter labels and documentation of the callee. */
  function FuncInfo(prog: Program, pkg: Package, fun: Node): (r: Info)
    ensures CalleeDecl(prog, pkg, fun).None? ==> r == Info("", [], "")
    ensures CalleeDecl(prog, pkg, fun).Some? ==>
              var decl := CalleeDecl(prog, pkg, fun).value;
              && r.parameters == Labels(decl.params, pkg.typeString)
              && r.documentation == DocText(decl)
              && r.signature == Splice(NodeAsString(prog, Clone(decl)), r.parameters)
    ensures r.signature == "" <==>
              CalleeDecl(prog, pkg, fun).None? || NodeAsString(prog, Clone(CalleeDecl(prog, pkg, fun).value)) == ""
  {
    match CallExprOf(prog.enclosing(prog.nodePos(fun), prog.nodePos(fun)))
    case None => Info("", [], "")
    case Some(call) =>
      match FuncDeclOf(prog, pkg, call)
      case None => Info("", [], "")
      case Some(decl) =>
        var parameters := Labels(decl.params, pkg.typeString);
        var signature := NodeAsString(prog, Clone(decl));
        SpliceEmpty(signature, parameters);
        Info(Splice(signature, parameters), parameters, DocText(decl))
  }

  /** A callee without parameters keeps its rendered signature and has no labels. */
  lemma FuncInfoNoParameters(prog: Program, pkg: Package, fun: Node)
    requires CalleeDecl(prog, pkg, fun).Some?
    requires Labels(CalleeDecl(prog, pkg, fun).value.params, pkg.typeString) == []
    ensures FuncInfo(prog, pkg, fun).parameters == []
    ensures FuncInfo(prog, pkg, fun).signature == NodeAsString(prog, Clone(CalleeDecl(prog, pkg, fun).value))
  {
    SpliceNoParameters(NodeAsString(prog, Clone(CalleeDecl(prog, pkg, fun).value)));
  }

  /** `func Add(a, b int) int` has the labels "a int" and "b int". */
  lemma AddLabels(typeString: Node -> string, intType: Node, pa: Pos, pb: Pos)
    requires typeString(intType) == "int"
    ensures Labels([Field([Name("a", pa), Name("b", pb)], intType)], typeString) == ["a int", "b int"]
  {
    var f := Field([Name("a", pa), Name("b", pb)], intType);
    assert [f][..0] == [];
    assert Label(Name("a", pa), "int") == "a int";
    assert Label(Name("b", pb), "int") == "b int";
    assert FieldLabels(f, "int") == ["a int", "b int"];
  }

  /**
   * In `func F(a []int, b *int)` the two type expressions are distinct nodes,
   * so each label carries its own field's type string.
   */
  lemma DistinctTypeLabels(typeString: Node -> string, pa: Pos, pb: Pos)
    requires typeString(Other(1)) == "[]int" && typeString(Other(2)) == "*int"
    ensures Labels([Field([Name("a", pa)], Other(1)), Field([Name("b", pb)], Other(2))], typeString)
            == ["a []int", "b *int"]
  {
    var fa := Field([Name("a", pa)], Other(1));
    var fb := Field([Name("b", pb)], Other(2));
    assert [fa, fb][1..] == [fb];
    assert [fb][1..] == [];
    assert Label(Name("a", pa), "[]int") == "a []int";
    assert Label(Name("b", pb), "*int") == "b *int";
    assert FieldLabels(fa, "[]int") == ["a []int"];
    assert FieldLabels(fb, "*int") == ["b *int"];
  }

  /** ... and is shown as "func Add(a int, b int) int". */
  lemma AddSignature(rendered: string)
    requires rendered == "func Add" + Placeholder + " int"
    ensures Splice(rendered, ["a int", "b int"]) == "func Add(a int, b int) int"
  {
    AddPlaceholder(rendered);
    AddJoin();
    ReplaceFirstAt(rendered, Placeholder, "(a int, b int)", 8);
    AddPieces(rendered);
  }

  lemma AddPieces(rendered: string)
    requires rendered == "func Add" + Placeholder + " int"
    ensures rendered[..8] + "(a int, b int)" + rendered[10..] == "func Add(a int, b int) int"
  {
    assert rendered[..8] == "func Add" && rendered[10..] == " int";
  }

  lemma AddJoin()
    ensures "(" + Join(["a int", "b int"], ", ") + ")" == "(a int, b int)"
  {
    assert ["a int", "b int"][1..] == ["b int"];
  }

  lemma AddPlaceholder(rendered: string)
    requires rendered == "func Add" + Placeholder + " int"
    ensures OccursAt(rendered, Placeholder, 8)
    ensures forall j :: 0 <= j < 8 ==> !OccursAt(rendered, Placeholder, j)
  {
    forall j | 0 <= j < 8 ensures !OccursAt(rendered, Placeholder, j) {
      assert rendered[j] != '(';
    }
    assert rendered[8..10] == Placeholder;
  }

  // ---------------------------------------------------------------------------
  // handleTextDocumentSignatureHelp
  // ---------------------------------------------------------------------------

  /** The error h.typecheck may report: invalidNodeError, or any other failure. */
  datatype TypecheckError = InvalidNode | Failure(message: string)

  /** What h.typecheck hands the handler: the path around the cursor and an error, if any. */
  datatype Typecheck = Typecheck(nodes: seq<Node>, err: Option<TypecheckError>)

  datatype ParameterInformation = ParameterInformation(labelText: string)

  datatype SignatureInformation =
    SignatureInformation(labelText: string, documentation: string, parameters: seq<ParameterInformation>)

  datatype SignatureHelp =
    SignatureHelp(signatures: seq<SignatureInformation>, activeSignature: int, activeParameter: int)

  /** The handler's outcome: an error, the empty (nil) reply, or a signature. */
  datatype Reply = Failed(err: TypecheckError) | NoHelp | Help(help: SignatureHelp)

  function Min(a: int, b: int): int {
    if a < b then a else b
  }

  /** info.Parameters: an array as long as the labels, entry `i` labelled `labels[i]`. */
  method ParameterInfos(labels: seq<string>) returns (infos: seq<ParameterInformation>)
    ensures |infos| == |labels|
    ensures forall k :: 0 <= k < |labels| ==> infos[k].labelText == labels[k]
  {
    var a := new ParameterInformation[|labels|];
    for i := 0 to |labels|
      invariant forall k :: 0 <= k < i ==> a[k] == ParameterInformation(labels[k])
    {
      a[i] := ParameterInformation(labels[i]);
    }
    infos := a[..];
  }

  method HandleSignatureHelp(prog: Program, pkg: Package, tc: Typecheck) returns (r: Reply)
    ensures r.Failed? <==> tc.err.Some? && tc.err.value.Failure?
    ensures r.Failed? ==> r.err == tc.err.value
    ensures r.NoHelp? <==> (!r.Failed? &&
              (CallExprOf(tc.nodes).None? || FuncInfo(prog, pkg, CallExprOf(tc.nodes).value.fun).signature == ""))
    ensures r.Help? ==> (CallExprOf(tc.nodes).Some? &&
              var call := CallExprOf(tc.nodes).value;
              var info := FuncInfo(prog, pkg, call.fun);
              var n, m := |info.parameters|, |call.args|;
              && info.signature != ""
              && |r.help.signatures| == 1
              && r.help.activeSignature == 0
              && r.help.signatures[0].labelText == info.signature
              && r.help.signatures[0].documentation == info.documentation
              && |r.help.signatures[0].parameters| == n
              && (forall k :: 0 <= k < n ==> r.help.signatures[0].parameters[k].labelText == info.parameters[k])
              && r.help.activeParameter == (if n == 0 then 0 else Min(n - 1, m))
              && 0 <= r.help.activeParameter <= m
              && (n > 0 ==> r.help.activeParameter < n))
  {
    if tc.err.Some? && !tc.err.value.InvalidNode? {
      return Failed(tc.err.value);
    }
    var call := CallExprOf(tc.nodes);
    if call.None? {
      return NoHelp;
    }
    var info := FuncInfo(prog, pkg, call.value.fun);
    if info.signature == "" {
      return NoHelp;
    }
    var parameters := ParameterInfos(info.parameters);
    var activeParameter := |parameters|;
    if activeParameter > 0 {
      activeParameter := activeParameter - 1;
    }
    var numArguments := |call.value.args|;
    if activeParameter > numArguments {
      activeParameter := numArguments;
    }
    var signature := SignatureInformation(info.signature, info.documentation, parameters);
    return Help(SignatureHelp([signature], 0, activeParameter));
  }
}
