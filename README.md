# Signature help and path predicates of go-langserver, in Dafny

This project models two pieces of the Go language server.

**Signature help** (`langserver/signature.go`). A `textDocument/signatureHelp` request works like this:

- Walk the syntax nodes around the cursor, innermost first, to the nearest call expression.
- Resolve the callee's head identifier (a bare identifier, or the selected name of `x.Sel`, searched no deeper than four path entries) to its object.
- From the object's declaration position, find the enclosing function declaration.
- Render that declaration with an empty parameter list, and splice the `"name type"` labels into the first `"()"`.
- Answer with exactly one signature, whose parameter array mirrors the labels, and with the active parameter clamped to `min(n-1, #args)`.

The Go toolchain appears only as read-only inputs:

- `Ast.Program` supplies `PathEnclosingInterval`, the nodes' `Pos()`/`End()`, and the printer's output.
- `Ast.Package` supplies `ObjectOf` and `TypeOf(..).String()`.
- `Signature.Typecheck` carries what `h.typecheck` returned.

**Path and URI predicates** (`langserver/util.go`). These are `PathHasPrefix`, `PathTrimPrefix`, `pathEqual`, `IsVendorDir`, `isURI` and `pathToURI`, as pure string functions. The OS path separator is the constant `'/'`.

Modules:

- `Wrappers`: `Option`.
- `Strings`: the behaviour of Go's `strings` package that the code relies on: `HasPrefix`, `HasSuffix`, `TrimPrefix`, `Index`, `Contains`, `Replace(.., 1)` and `Join`.
- `PathUtil`: `util.go`.
- `Ast`: the closed syntax-node datatype `CallExpr | Ident | SelectorExpr | FuncDecl | Other`, and the injected collaborators. `Other(node)` stands for any other node; its `node` number is the node's identity, so type expressions such as `[]int` and `*int` are distinct values.
- `Signature`: `signature.go`.

The three search loops `callExpr`, `ident` and `funcDecl`, and the loop in `funcInfo`, are recursive functions over the path. They share one first-match search, `FirstIndex`. `parametersAsString` and the loop that fills `info.Parameters` are methods with loops. Each is proved equal to its specification (`Labels`, and the element-wise labels).

A callee with zero parameters still gets an answer. The splice then replaces `"()"` with `"()"`, so the signature stays non-empty. The handler answers with that signature, an empty parameter array and active parameter 0 (`FuncInfoNoParameters`, `HandleSignatureHelp`).

## Model

| member | source | states |
|---|---|---|
| `Signature.CallExprOf` | langserver/signature.go:53-61 | the result is the first `CallExpr` on the innermost-first path, and None exactly when the path holds no call |
| `Signature.FirstIndex` | langserver/signature.go:54-59 | the early-return loop: the first index whose element satisfies the test, None iff there is none |
| `Signature.FirstIdent` | langserver/signature.go:106-114 | only the first 4 path entries are inspected; the result is the first `Ident` itself or the `Sel` of the first `SelectorExpr`, and None iff neither occurs among them |
| `Signature.IdentLooksNoDeeper` | langserver/signature.go:106 | entries beyond the fourth never change what `ident` finds |
| `Signature.DeclaredObject` | langserver/signature.go:119-126 | an object is kept exactly when there is an identifier, `ObjectOf` knows it, and its position is valid, and it is then `ObjectOf`'s object |
| `Signature.FuncDeclOf` | langserver/signature.go:118-135 | None without an identifier, without an object, or for an invalid position; otherwise the first `FuncDecl` on the path enclosing the object's position, or None if there is none |
| `Signature.ParametersAsString` | langserver/signature.go:149-158 | the nested append loop computes exactly `Labels(fields)` |
| `Signature.Labels` | langserver/signature.go:150-157 | the number of labels is the total number of names over all fields |
| `Signature.DistinctTypeLabels` | langserver/signature.go:151-155 | in `func F(a []int, b *int)` each label carries its own field's type string: `"a []int"`, `"b *int"` |
| `Signature.LabelsAt` | langserver/signature.go:151-155 | name `j` of field `i` sits right after the labels of the earlier fields, labelled `name + " " + typeString(field.Type)` (field-then-name order) |
| `Signature.LabelsConcat` | langserver/signature.go:151-156 | the labels of two consecutive runs of fields are the concatenation of their labels |
| `Signature.LabelsSkipUnnamed` | langserver/signature.go:153-155 | a field with no names contributes no label |
| `Signature.CloneIgnoresParametersAndDoc` | langserver/signature.go:87-96 | declarations that agree on receiver, name and results render to the same text, whatever their parameters and documentation |
| `Signature.NodeAsString` | langserver/signature.go:138-146 | a printer failure gives `""`, and a successful print returns the printer's output |
| `Signature.CalleeDecl` | langserver/signature.go:72-81 | None when the path around the callee's start holds no call; otherwise the declaration `funcDecl` finds for the first call, with no search past it |
| `Signature.IdentOf` | langserver/signature.go:104-115 | on the path enclosing the node's extent: None iff none of the first 4 entries is an `Ident` or `SelectorExpr`, else the name of the first such entry |
| `Signature.Splice` | langserver/signature.go:97 | without a `"()"` the rendering is unchanged; with one it grows by exactly the length of the joined labels |
| `Signature.FuncInfo` | langserver/signature.go:71-100 | no declaration gives `("", nil, "")`; otherwise the labels of its parameters, its doc text, and the rendered clone spliced with the labels; the signature is empty exactly when there is no declaration or the render failed or was empty |
| `Signature.SpliceEmpty` | langserver/signature.go:97 | the splice is empty iff the rendering was, so a printer failure (`""`) makes the handler return nothing |
| `Signature.SpliceNoParameters` | langserver/signature.go:97 | with no labels the splice leaves the rendering unchanged |
| `Signature.SpliceLabelAt` | langserver/signature.go:97 | only the first `"()"` is replaced, by `"(" + join(labels, ", ") + ")"`, and label `k` appears verbatim at its computed offset |
| `Signature.FuncInfoNoParameters` | langserver/signature.go:86-97 | a declaration without parameters keeps its rendered signature and yields no labels |
| `Signature.AddLabels` | langserver/signature.go:151-155 | `func Add(a, b int)` yields the labels `"a int"`, `"b int"` |
| `Signature.AddSignature` | langserver/signature.go:97 | `"func Add() int"` is spliced to `"func Add(a int, b int) int"` |
| `Signature.ParameterInfos` | langserver/signature.go:36-39 | the parameter array has one entry per label, entry `i` labelled `parameters[i]` |
| `Signature.HandleSignatureHelp` | langserver/signature.go:17-50 | a non-`invalidNodeError` error is returned, while `invalidNodeError` is ignored; no call or an empty signature gives an empty reply; otherwise exactly one signature, `ActiveSignature == 0`, the parameter array mirrors the labels, and `activeParameter == (n == 0 ? 0 : min(n-1, #args))`, within `[0, #args]` and below `n` when `n > 0` |
| `Strings.IndexFrom` | langserver/signature.go:97 | the first occurrence of the pattern at or after a position, None iff there is none |
| `Strings.Index` | langserver/util.go:37 | the search that `strings.Contains` (util.go:37) and `strings.Replace` (signature.go:97) are built on: the first occurrence, None iff the pattern does not occur |
| `Strings.ReplaceFirst` | langserver/signature.go:97 | without an occurrence the string is unchanged; with one the length changes by the replacement's length minus the pattern's |
| `Strings.Join` | langserver/signature.go:97 | no elements join to `""`; otherwise the result starts with the first element and ends with the last |
| `Strings.HasPrefixIff` | langserver/util.go:18 | `strings.HasPrefix` holds iff the prefix agrees with the start of `s` character by character |
| `Strings.HasSuffixIff` | langserver/util.go:15 | `strings.HasSuffix` holds iff the suffix agrees with the end of `s` character by character |
| `Strings.Contains` | langserver/util.go:37 | `strings.Contains` holds iff the substring occurs at some position |
| `Strings.ReplaceFirstAt` | langserver/signature.go:97 | `strings.Replace(.., 1)` replaces the first occurrence and nothing else |
| `Strings.ReplaceFirstAbsent` | langserver/signature.go:97 | without an occurrence the string comes back unchanged |
| `Strings.JoinAt` | langserver/signature.go:97 | `strings.Join` places each element, unaltered, after the earlier elements and separators |
| `Strings.JoinSepAt` | langserver/signature.go:97 | the separator (`", "` in the display signature) stands right after element `k`, wherever another element follows |
| `Strings.JoinLength` | langserver/signature.go:97 | the join ends right after its last element, so its length is the elements' lengths plus one separator per gap |
| `Strings.TrimPrefix` | langserver/util.go:28 | `strings.TrimPrefix`: when `s` starts with the prefix, prefix + result == s, and otherwise `s` is unchanged |
| `PathUtil.WithSeparator` | langserver/util.go:25-27 | the separator is appended only when missing; the result ends with it and starts with the prefix |
| `PathUtil.PathHasPrefix` | langserver/util.go:13-19 | `PathHasPrefix(s, s)` holds, and an empty prefix or one ending in the separator matches every `s` |
| `PathUtil.PathHasPrefixBelow` | langserver/util.go:13-19 | for a non-empty prefix without a trailing separator: true iff `s == prefix` or `s` continues `prefix` with the separator |
| `PathUtil.PathHasPrefixTrailingSeparator` | langserver/util.go:14-18 | as written, `PathHasPrefix("/etc", "/home/")` holds although `PathTrimPrefix` removes nothing |
| `PathUtil.PathHasPrefixCorrected` | langserver/util.go:13-19 | the corrected check still holds for `s == prefix` |
| `PathUtil.PathHasPrefixCorrectedTrims` | langserver/util.go:13-29 | for a non-empty prefix the corrected check holds iff `s == prefix` or trimming strips the prefix with its separator |
| `PathUtil.PathHasPrefixCorrectedTrailingSeparator` | langserver/util.go:14-18 | the corrected check rejects `("/etc", "/home/")` |
| `PathUtil.PathTrimPrefix` | langserver/util.go:21-29 | equal paths give `""`; when `s` starts with the separator-terminated prefix `p`, `p + r == s`; otherwise `s` is returned unchanged |
| `PathUtil.PathEqual` | langserver/util.go:31-33 | a path equals itself |
| `PathUtil.PathEqualIff` | langserver/util.go:31-33 | `pathEqual(a, b)` iff `a == b`, or `a` is `b` with its separator, or `a == ""` |
| `PathUtil.PathEqualCases` | langserver/util.go:31-33 | `pathEqual(a, a)` and `pathEqual("", b)` hold, and so does `pathEqual(b + sep, b)` when `b` lacks a trailing separator |
| `PathUtil.PathEqualDoubleSeparator` | langserver/util.go:31-33 | `pathEqual("x//", "x/")` is false |
| `PathUtil.IsVendorDir` | langserver/util.go:36-38 | a directory starting with `"vendor/"` is a vendor directory |
| `PathUtil.IsVendorDirIff` | langserver/util.go:36-38 | true iff a `"vendor/"` segment starts at the beginning or right after a `/` |
| `PathUtil.VendorExamples` | langserver/util.go:36-38 | `"vendor"` and `"a/vendor"` are not vendor directories, while `"a/vendor/b"` is |
| `PathUtil.IsURI` | langserver/util.go:41-43 | true iff `s` starts with `"file://"` followed by a `/` |
| `PathUtil.PathToURI` | langserver/util.go:46-48 | the URI starts with `"file://"` and is seven characters longer than the path |
| `PathUtil.PathToURIRoundTrip` | langserver/util.go:46-48 | stripping `"file://"` from `pathToURI(p)` gives back `p` |
| `PathUtil.PathToURIIsURI` | langserver/util.go:41-48 | `isURI(pathToURI(p))` iff `p` starts with `"/"` |

## Left out

- `h.typecheck`, `PathEnclosingInterval`, `ObjectOf`, `TypeOf(..).String()` and the nodes' positions are inputs (`Signature.Typecheck`, `Ast.Program`, `Ast.Package`). They come from go/loader and go/types, which are not part of this model. `Pos.IsValid` is modelled as "not `NoPos` (zero)", as go/token defines it.
- `Package.typeString` is total: the model assumes `pkg.TypeOf(field.Type)` always returns a type. In Go, `.String()` on a nil result panics. That can happen when the `FuncDecl` lies in another package than the caller's `pkg` (signature.go:127, 152). The panic is not modelled.
- `nodeAsString`: the go/printer output (tab width 4, spaces) is the injected `Program.render`, where None stands for a printer error. Only the splice around it is verified.
- `CommentGroup.Text()`: a `FuncDecl`'s documentation is modelled as its already extracted text.
- Node kinds other than the four the handler tells apart are `Other(node)`, distinguished only by their identity. What the handler learns about them (`TypeOf(field.Type)`, the callee's `Pos()`/`End()`, the printer's output) comes from the injected functions of `Ast.Program` and `Ast.Package`. Function bodies are not modelled, because the clone the printer sees has none.
- `shortObject` is not modelled: it wraps `types.ObjectString` and nothing shown calls it.
- `uriToPath` is not modelled: it depends on `url.Parse` percent-decoding, `runtime.GOOS` and `filepath.Clean`.
- `panicf` is not modelled: it covers logging, stack capture and `fmt` formatting.
- Go strings are byte sequences and `len` counts bytes; here a string is a sequence of characters, so the length facts (`ReplaceFirst`, `Splice`, `PathToURI`'s "seven characters longer") count characters. The computed strings are the same: every pattern is ASCII, and prefix, suffix, index, replace and join commute with UTF-8 encoding.
- The JSON-RPC/LSP transport, `context.Context` cancellation and concurrency are not modelled.
- The idempotence of a repeated request is immediate in this model, because every operation is a function of its inputs, so no lemma states it.

## Findings

| source | as written | input that shows it | evidently intended | confidence | as-written member | corrected member |
|---|---|---|---|---|---|---|
| langserver/util.go:14-18 | a prefix that already ends with the separator leaves `prefixSlash` empty, so `PathHasPrefix` is true for every path | `PathHasPrefix("/etc", "/home/")` is true, while `PathTrimPrefix("/etc", "/home/")` returns `"/etc"` | use the prefix itself as the probe when it already ends with the separator, so that the check agrees with `PathTrimPrefix` | medium, not executed | `PathUtil.PathHasPrefixTrailingSeparator` | `PathUtil.PathHasPrefixCorrectedTrims` |

`PathUtil.PathHasPrefix` itself keeps the as-written behaviour. Nothing else in the model calls it.
