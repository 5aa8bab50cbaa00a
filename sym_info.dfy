/** The records of the symbol table (src/symtable/mod.rs:185-255): what is known about each
    declaration (`SymInfo`) and each nominal type (`TypeInfo`). The shapes are the ones the
    resolver fills in. */
module SymInfos {
  import opened Wrappers
  import opened Common
  import opened NodeIds
  import opened TVars
  import Types
  import P = ParsedAst

  datatype SymKind =
    | FuncSym(args: seq<Types.Type>, ret: Types.Type)
    | StructSym(tvar: TVar)
    | EnumSym(tvar: TVar)
    | EnumConsSym(args: seq<Types.Type>, parent: NodeID)

  datatype SymInfo = SymInfo(name: string, pos: Position, kind: SymKind, builtinName: Option<string>,
                             isExtern: bool, mangle: bool)

  datatype TypeKind =
    | BuiltinKind
    | StructKind(fields: map<string, Types.Type>)
    | EnumKind(constructors: seq<NodeID>)

  datatype TypeInfo = TypeInfo(name: string, pos: Position, methods: map<string, NodeID>, kind: TypeKind)

  /** `SymInfo::build`: no builtin name, not extern, mangled. */
  function Build(name: string, pos: Position, kind: SymKind): (r: SymInfo)
    ensures r.name == name && r.pos == pos && r.kind == kind
    ensures r.builtinName.None? && !r.isExtern && r.mangle
  {
    SymInfo(name, pos, kind, None, false, true)
  }

  /** Some attribute in `attrs` is called `name`. */
  predicate HasAttr(attrs: seq<P.Attribute>, name: string)
  {
    exists i :: 0 <= i < |attrs| && attrs[i].name.data == name
  }

  /** `SymInfo::with_attributes`: "extern" sets the extern flag, "no_mangle" clears mangling,
      every other attribute is ignored; nothing else changes. */
  method WithAttributes(info: SymInfo, attrs: seq<P.Attribute>) returns (r: SymInfo)
    ensures r == info.(isExtern := info.isExtern || HasAttr(attrs, "extern"),
                       mangle := info.mangle && !HasAttr(attrs, "no_mangle"))
  {
    r := info;
    var i := 0;
    while i < |attrs|
      invariant 0 <= i <= |attrs|
      invariant r == info.(isExtern := info.isExtern || HasAttr(attrs[..i], "extern"),
                           mangle := info.mangle && !HasAttr(attrs[..i], "no_mangle"))
    {
      HasAttrSnoc(attrs, i, "extern");
      HasAttrSnoc(attrs, i, "no_mangle");
      match attrs[i].name.data {
        case "extern" => r := r.(isExtern := true);
        case "no_mangle" => r := r.(mangle := false);
        case _ =>
      }
      i := i + 1;
    }
    assert attrs[..i] == attrs;
  }

  /** One more attribute has the name `n` exactly when the last one is called `n`. */
  lemma HasAttrSnoc(attrs: seq<P.Attribute>, i: nat, n: string)
    requires i < |attrs|
    ensures HasAttr(attrs[..i + 1], n) <==> HasAttr(attrs[..i], n) || attrs[i].name.data == n
  {
    if HasAttr(attrs[..i + 1], n) && attrs[i].name.data != n {
      var k :| 0 <= k < i + 1 && attrs[..i + 1][k].name.data == n;
      assert attrs[..i][k] == attrs[..i + 1][k];
    }
    if HasAttr(attrs[..i], n) {
      var k :| 0 <= k < i && attrs[..i][k].name.data == n;
      assert attrs[..i + 1][k] == attrs[..i][k];
    }
    assert attrs[..i + 1][i] == attrs[i];
  }

  /** `SymTable::get_builtin_id`: some declaration whose builtin name is `name`, in the map's
      iteration order, or `None` when there is none. */
  method GetBuiltinId(nodeMap: map<NodeID, SymInfo>, name: string) returns (r: Option<NodeID>)
    ensures r.Some? ==> r.value in nodeMap && nodeMap[r.value].builtinName == Some(name)
    ensures r.None? <==> forall id :: id in nodeMap ==> nodeMap[id].builtinName != Some(name)
  {
    var todo := nodeMap.Keys;
    while todo != {}
      invariant todo <= nodeMap.Keys
      invariant forall id :: id in nodeMap && id !in todo ==> nodeMap[id].builtinName != Some(name)
      decreases |todo|
    {
      var id :| id in todo;
      if nodeMap[id].builtinName == Some(name) {
        return Some(id);
      }
      todo := todo - {id};
    }
    r := None;
  }
}
