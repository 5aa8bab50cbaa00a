/** Positions, identifiers, paths, visibility and diagnostics (src/common/mod.rs, src/error/context.rs). */
module Common {
  import opened Wrappers

  /** Source positions are opaque: the model only compares and carries them. */
  datatype Position = Nowhere | Span(file: nat, start: nat, end: nat)

  /** An identifier with the position it was written at. */
  datatype Ident = Ident(data: string, pos: Position)

  /** `Ident::name_str`: the identifier text. */
  function NameStr(id: Ident): (s: string)
    ensures s == id.data
  {
    id.data
  }

  datatype Visibility = Private | Public

  /** A `Path` is a double-ended queue of identifiers; front is index 0. */
  type Path = seq<Ident>

  /** `Path::push_back`: the path with `id` appended at the end. */
  function PushBack(p: Path, id: Ident): (r: Path)
    ensures |r| == |p| + 1 && r[..|p|] == p && r[|p|] == id
  {
    p + [id]
  }

  /** `Path::pop_back`: drops the last segment; an empty path stays empty. */
  function PopBack(p: Path): (r: Path)
    ensures p == [] ==> r == []
    ensures p != [] ==> |r| == |p| - 1 && p == r + [p[|p| - 1]]
  {
    if p == [] then [] else p[..|p| - 1]
  }

  lemma PopBackPushBack(p: Path, id: Ident)
    ensures PopBack(PushBack(p, id)) == p
  {
  }

  /** The deque operations used on paths by the namespace code. */
  function PushFront(p: Path, id: Ident): (r: Path)
    ensures |r| == |p| + 1 && r[0] == id && r[1..] == p
  {
    [id] + p
  }

  function TryLast(p: Path): (r: Option<Ident>)
    ensures r.None? <==> p == []
    ensures r.Some? ==> r.value == p[|p| - 1]
  {
    if p == [] then None else Some(p[|p| - 1])
  }

  function IfSingle(p: Path): (r: Option<Ident>)
    ensures r.Some? <==> |p| == 1
    ensures r.Some? ==> r.value == p[0]
  {
    if |p| == 1 then Some(p[0]) else None
  }

  /** Concatenation of the names with a separator between consecutive ones (Rust's `join`). */
  function JoinNames(p: Path, sep: string): (s: string)
    ensures p == [] ==> s == []
    ensures |p| == 1 ==> s == p[0].data
  {
    if p == [] then []
    else if |p| == 1 then p[0].data
    else p[0].data + sep + JoinNames(p[1..], sep)
  }

  /** `Display for Path`: segment names joined by "::". */
  function ShowPath(p: Path): (s: string)
    ensures p == [] ==> s == []
    ensures |p| == 1 ==> s == p[0].data
  {
    JoinNames(p, "::")
  }

  /** Appending a segment appends "::" and its name to a non-empty path's text. */
  lemma {:induction false} ShowPathPushBack(p: Path, id: Ident)
    ensures ShowPath(PushBack(p, id)) == if p == [] then id.data else ShowPath(p) + "::" + id.data
  {
    if |p| > 1 {
      assert PushBack(p, id)[1..] == PushBack(p[1..], id);
      ShowPathPushBack(p[1..], id);
    } else if |p| == 1 {
      assert PushBack(p, id)[1..] == [id];
    }
  }

  /** What a diagnostic says, without its rendering. */
  datatype DiagKind =
    | TypeParamsMismatch(expected: nat, got: nat)
    | MissingModule(name: string)
    | UnboundVariable(name: string)
    | AmbiguousSymbol(name: string)
    | CannotImportFrom(name: string, note: string)
    | PrivateItem(name: string)
    | AlreadyBound(name: string)
    | NotANamespace(name: string)
    | SelfOnFreeFunction
    | FunctionWithNoBody
    | FieldDuplicate(name: string)
    | LocalType
    | RecursiveType
    | UnsizedType
    | TypeMismatch
    | ExpectedMutable
    | UnexpectedArgument(index: nat)
    | CannotInferType
    | NoSuchField(field: string)
    | InternalError(msg: string)  // an `InternalError` returned instead of a diagnostic

  /** A diagnostic: an error record with its kind and the position it points at. */
  datatype Diagnostic = Diagnostic(kind: DiagKind, pos: Position)

  /** The compilation context: diagnostics are collected in report order. */
  class Context {
    var diagnostics: seq<Diagnostic>

    constructor ()
      ensures diagnostics == []
    {
      diagnostics := [];
    }

    /** `Context::report` (src/error/context.rs:42-44). */
    method Report(d: Diagnostic)
      modifies this
      ensures diagnostics == old(diagnostics) + [d]
    {
      diagnostics := diagnostics + [d];
    }
  }

  /** The outcome of a fallible compiler operation: a value, a reported error, or a panic. */
  datatype Res<T> = Ok(value: T) | Err(diag: Diagnostic) | Abort(reason: string)
}
