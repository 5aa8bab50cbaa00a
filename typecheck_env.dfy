/** The environment of the type checker (src/typecheck/env.rs): a stack of scopes binding
    local names to their mutability and type, the function's expected return type, and the
    unification variables recorded for defaulting when the function is finished. */
module TypecheckEnv {
  import opened Wrappers
  import opened Common
  import opened Types
  import opened UVars

  /** One scope: a name's mutability and type. */
  type Scope = map<string, (bool, Type)>

  /** The binding of `name` in the innermost scope of `scopes` that binds it. */
  function LookupIn(scopes: seq<Scope>, name: string): (r: Option<(bool, Type)>)
    ensures r.Some? ==> exists i :: 0 <= i < |scopes| && name in scopes[i] && r.value == scopes[i][name] &&
                                    forall j :: i < j < |scopes| ==> name !in scopes[j]
    decreases |scopes|
  {
    if scopes == [] then None
    else if name in scopes[|scopes| - 1] then Some(scopes[|scopes| - 1][name])
    else LookupIn(scopes[..|scopes| - 1], name)
  }

  /** A name is found exactly when some scope binds it. */
  lemma {:induction false} LookupInFinds(scopes: seq<Scope>, name: string)
    ensures LookupIn(scopes, name).Some? <==> exists i :: 0 <= i < |scopes| && name in scopes[i]
    decreases |scopes|
  {
    if scopes != [] {
      var pre := scopes[..|scopes| - 1];
      LookupInFinds(pre, name);
      if exists i :: 0 <= i < |scopes| && name in scopes[i] {
        var i :| 0 <= i < |scopes| && name in scopes[i];
        if i < |pre| {
          assert name in pre[i];
        }
      }
      if exists i :: 0 <= i < |pre| && name in pre[i] {
        var i :| 0 <= i < |pre| && name in pre[i];
        assert name in scopes[i];
      }
    }
  }

  /** The scopes after `name` is bound to `b` in the innermost one. */
  function Bound(scopes: seq<Scope>, name: string, b: (bool, Type)): (r: seq<Scope>)
    requires scopes != []
    ensures |r| == |scopes| && r[..|r| - 1] == scopes[..|scopes| - 1]
  {
    scopes[|scopes| - 1 := scopes[|scopes| - 1][name := b]]
  }

  /** A new binding shadows every outer one of the same name and hides no other name. */
  lemma LookupBound(scopes: seq<Scope>, name: string, b: (bool, Type), other: string)
    requires scopes != []
    ensures LookupIn(Bound(scopes, name, b), name) == Some(b)
    ensures other != name ==> LookupIn(Bound(scopes, name, b), other) == LookupIn(scopes, other)
  {
    var r := Bound(scopes, name, b);
    assert r[..|r| - 1] == scopes[..|scopes| - 1];
  }

  /** An empty innermost scope changes no lookup, and leaving it restores the stack. */
  lemma LookupNewScope(scopes: seq<Scope>, name: string)
    ensures LookupIn(scopes + [map[]], name) == LookupIn(scopes, name)
    ensures (scopes + [map[]])[..|scopes|] == scopes
  {
    assert (scopes + [map[]])[..|scopes|] == scopes;
  }

  /** Every bound type mentions only nodes of the arena, with their flavour. */
  ghost predicate ScopesWf(scopes: seq<Scope>, num: seq<bool>)
  {
    forall i, x :: 0 <= i < |scopes| && x in scopes[i] ==> Wf(scopes[i][x].1, num)
  }

  /** The panic of `Type::builtin("i32")`, which `finish` hits when defaulting a numeric
      variable. */
  const I32_PANIC: string := "not a builtin name: i32"

  lemma I32Panic()
    ensures Builtin("i32") == Panic(I32_PANIC)
  {
    assert "i32" != "never" && "i32" != "bool";
  }

  /** What `finish` does with the recorded types, given what each views as (paired with its
      position): each one that still views as an open `UVar` is reported, and the first one
      that views as an open `NumericUVar` stops it with the panic of `Type::builtin("i32")`. */
  datatype FinishOutcome = FinishOutcome(reports: seq<Diagnostic>, panics: bool)

  function FinishFrom(vs: seq<(Type, Position)>, i: nat): (r: FinishOutcome)
    requires i <= |vs|
    ensures r.panics <==> exists k :: i <= k < |vs| && vs[k].0.NumericUVar?
    decreases |vs| - i
  {
    if i == |vs| then FinishOutcome([], false)
    else if vs[i].0.NumericUVar? then FinishOutcome([], true)
    else
      var rest := FinishFrom(vs, i + 1);
      if vs[i].0.UVar? then FinishOutcome([Diagnostic(CannotInferType, vs[i].1)] + rest.reports, rest.panics)
      else rest
  }

  /** The recorded types `us` as they view on the arena state `ns`, with their positions. */
  ghost function Viewed(ns: seq<UVarData>, g: Ghosts, us: seq<(Type, Position)>): (vs: seq<(Type, Position)>)
    requires ValidState(ns, g) && forall k :: 0 <= k < |us| ==> Wf(us[k].0, g.numeric)
    ensures |vs| == |us|
    ensures forall k :: 0 <= k < |us| ==> vs[k] == (ViewIn(ns, g, us[k].0), us[k].1)
    decreases |us|
  {
    if us == [] then []
    else
      var rest := Viewed(ns, g, us[1..]);
      assert forall k :: 1 <= k < |us| ==> us[1..][k - 1] == us[k];
      [(ViewIn(ns, g, us[0].0), us[0].1)] + rest
  }

  /** `finish` is silent from `i` on exactly when every recorded type from `i` on views as a
      resolved type. */
  lemma {:induction false} FinishSilent(vs: seq<(Type, Position)>, i: nat)
    requires i <= |vs|
    ensures FinishFrom(vs, i) == FinishOutcome([], false) <==>
      forall k :: i <= k < |vs| ==> TopNode(vs[k].0).None?
    decreases |vs| - i
  {
    if i < |vs| {
      FinishSilent(vs, i + 1);
      if TopNode(vs[i].0).Some? {
        assert vs[i].0.UVar? || vs[i].0.NumericUVar?;
      }
    }
  }

  /** Every report of `finish` is a `cannot_infer_type`, one per open `UVar` before the first
      open `NumericUVar`. */
  lemma {:induction false} FinishReportsOpen(vs: seq<(Type, Position)>, i: nat)
    requires i <= |vs|
    ensures forall d :: d in FinishFrom(vs, i).reports ==> d.kind == CannotInferType
    ensures |FinishFrom(vs, i).reports| <= |vs| - i
    decreases |vs| - i
  {
    if i < |vs| {
      FinishReportsOpen(vs, i + 1);
    }
  }

  lemma AppendAssoc(x: seq<Diagnostic>, y: seq<Diagnostic>, z: seq<Diagnostic>)
    ensures (x + y) + z == x + (y + z)
  {
  }

  /** Since the state `ns0`, `g0`, `c0`, the arena only compressed paths. */
  ghost predicate OnlyCompressed(a: Arena, ns0: seq<UVarData>, g0: Ghosts, c0: nat)
    reads a
  {
    a.Valid() && a.g == g0 && a.counter == c0 && SameClasses(ns0, a.nodes, g0)
  }

  /** One turn of the loop of `finish` at the `i`-th recorded type: views it and reports it
      when it is still an open `UVar`; `stop` when it is an open `NumericUVar`. `done` is what
      the earlier turns reported; `done'` is what the turns so far have reported. */
  method FinishOne(ctx: Context, a: Arena, us: seq<(Type, Position)>, i: nat, ghost vs: seq<(Type, Position)>,
                   ghost d0: seq<Diagnostic>, ghost done: seq<Diagnostic>, ghost ns0: seq<UVarData>, ghost g0: Ghosts, ghost c0: nat)
    returns (stop: bool, ghost done': seq<Diagnostic>)
    requires OnlyCompressed(a, ns0, g0, c0) && ValidState(ns0, g0)
    requires i < |us| == |vs| && Wf(us[i].0, g0.numeric) && vs[i] == (ViewIn(ns0, g0, us[i].0), us[i].1)
    requires ctx.diagnostics == d0 + done
    requires FinishFrom(vs, 0) == FinishOutcome(done + FinishFrom(vs, i).reports, FinishFrom(vs, i).panics)
    modifies ctx, a
    ensures OnlyCompressed(a, ns0, g0, c0)
    ensures ctx.diagnostics == d0 + done'
    ensures stop ==> done' == done && FinishFrom(vs, 0) == FinishOutcome(done, true)
    ensures !stop ==> FinishFrom(vs, 0) == FinishOutcome(done' + FinishFrom(vs, i + 1).reports, FinishFrom(vs, i + 1).panics)
  {
    ghost var ns1 := a.nodes;
    SameClassesView(ns0, ns1, a.g, us[i].0);
    var v := a.View(us[i].0);
    SameClassesTrans(ns0, ns1, a.nodes, a.g);
    stop := v.NumericUVar?;
    done' := done;
    if v.UVar? {
      var d := Diagnostic(CannotInferType, us[i].1);
      AppendAssoc(done, [d], FinishFrom(vs, i + 1).reports);
      AppendAssoc(d0, done, [d]);
      ctx.Report(d);
      done' := done + [d];
    }
  }

  /** The loop of `finish` over the recorded types `us`, which view as `vs`; `panicked` when
      it stops at an open numeric variable. */
  method FinishLoop(ctx: Context, a: Arena, us: seq<(Type, Position)>, ghost vs: seq<(Type, Position)>,
                    ghost ns0: seq<UVarData>, ghost g0: Ghosts, ghost c0: nat) returns (panicked: bool)
    requires OnlyCompressed(a, ns0, g0, c0) && ValidState(ns0, g0)
    requires forall k :: 0 <= k < |us| ==> Wf(us[k].0, g0.numeric)
    requires |vs| == |us| && forall k :: 0 <= k < |us| ==> vs[k] == (ViewIn(ns0, g0, us[k].0), us[k].1)
    modifies ctx, a
    ensures OnlyCompressed(a, ns0, g0, c0)
    ensures ctx.diagnostics == old(ctx.diagnostics) + FinishFrom(vs, 0).reports
    ensures panicked == FinishFrom(vs, 0).panics
  {
    ghost var d0 := ctx.diagnostics;
    ghost var done: seq<Diagnostic> := [];
    var i := 0;
    while i < |us|
      invariant 0 <= i <= |us| && OnlyCompressed(a, ns0, g0, c0)
      invariant ctx.diagnostics == d0 + done
      invariant FinishFrom(vs, 0) == FinishOutcome(done + FinishFrom(vs, i).reports, FinishFrom(vs, i).panics)
    {
      var stop;
      stop, done := FinishOne(ctx, a, us, i, vs, d0, done, ns0, g0, c0);
      if stop {
        return true;
      }
      i := i + 1;
    }
    assert done + [] == done;
    panicked := false;
  }

  class Env {
    var expectedRet: Type
    var scopes: seq<Scope>
    var uvars: seq<(Type, Position)>

    /** `Env::new`: one empty scope and nothing recorded. */
    constructor (expectedRet: Type)
      ensures this.expectedRet == expectedRet && scopes == [map[]] && uvars == []
    {
      this.expectedRet := expectedRet;
      scopes := [map[]];
      uvars := [];
    }

    /** `fresh_uvar`: a new `UVar`, recorded with its position. */
    method FreshUVar(a: Arena, pos: Position) returns (t: Type)
      requires a.Valid()
      modifies this, a
      ensures a.Valid() && a.g.numeric == old(a.g.numeric) + [false] && |a.nodes| == old(|a.nodes|) + 1
      ensures t == UVar(old(|a.nodes|)) && Wf(t, a.g.numeric)
      ensures uvars == old(uvars) + [(t, pos)]
      ensures scopes == old(scopes) && expectedRet == old(expectedRet)
    {
      var x := a.New(false);
      t := UVar(x);
      uvars := uvars + [(t, pos)];
    }

    /** `numeric_uvar`: a new `NumericUVar`, recorded with its position. */
    method NumericUVar(a: Arena, pos: Position) returns (t: Type)
      requires a.Valid()
      modifies this, a
      ensures a.Valid() && a.g.numeric == old(a.g.numeric) + [true] && |a.nodes| == old(|a.nodes|) + 1
      ensures t == Types.NumericUVar(old(|a.nodes|)) && Wf(t, a.g.numeric)
      ensures uvars == old(uvars) + [(t, pos)]
      ensures scopes == old(scopes) && expectedRet == old(expectedRet)
    {
      var x := a.New(true);
      t := Types.NumericUVar(x);
      uvars := uvars + [(t, pos)];
    }

    /** `add_var`: binds `name` in the innermost scope, replacing a binding there; with no
        scope at all it panics (`ok` is false) and changes nothing. */
    method AddVar(name: string, isMut: bool, tp: Type) returns (ok: bool)
      modifies this
      ensures ok <==> old(scopes) != []
      ensures ok ==> scopes == Bound(old(scopes), name, (isMut, tp))
      ensures !ok ==> scopes == old(scopes)
      ensures uvars == old(uvars) && expectedRet == old(expectedRet)
    {
      if scopes == [] {
        return false;
      }
      scopes := Bound(scopes, name, (isMut, tp));
      ok := true;
    }

    /** `lookup`: the innermost binding of `name`, scanning the scopes from the innermost;
        a name no scope binds is unreachable. */
    method Lookup(name: string) returns (r: Panicking<(bool, Type)>)
      ensures LookupIn(scopes, name).Some? ==> r == Value(LookupIn(scopes, name).value)
      ensures LookupIn(scopes, name).None? ==> r == Panic("internal error: entered unreachable code")
    {
      var i := |scopes|;
      assert scopes[..i] == scopes;
      while i > 0
        invariant 0 <= i <= |scopes|
        invariant LookupIn(scopes, name) == LookupIn(scopes[..i], name)
      {
        if name in scopes[i - 1] {
          return Value(scopes[i - 1][name]);
        }
        assert scopes[..i][..i - 1] == scopes[..i - 1];
        i := i - 1;
      }
      return Panic("internal error: entered unreachable code");
    }

    /** `new_scope`: pushes an empty scope. */
    method NewScope()
      modifies this
      ensures scopes == old(scopes) + [map[]]
      ensures uvars == old(uvars) && expectedRet == old(expectedRet)
    {
      scopes := scopes + [map[]];
    }

    /** `leave_scope`: pops the innermost scope; with none left it does nothing. */
    method LeaveScope()
      modifies this
      ensures old(scopes) == [] ==> scopes == []
      ensures old(scopes) != [] ==> scopes == old(scopes)[..|old(scopes)| - 1]
      ensures uvars == old(uvars) && expectedRet == old(expectedRet)
    {
      if scopes != [] {
        scopes := scopes[..|scopes| - 1];
      }
    }

    /** `finish`: views every recorded type in order, reporting `cannot_infer_type` for an
        open `UVar`; an open `NumericUVar` is to be defaulted to `i32`, but building that
        type panics first. Viewing only compresses paths. */
    method Finish(ctx: Context, a: Arena) returns (r: Res<()>)
      requires a.Valid() && forall k :: 0 <= k < |uvars| ==> Wf(uvars[k].0, a.g.numeric)
      modifies ctx, a
      ensures a.Valid() && a.g == old(a.g) && a.counter == old(a.counter)
      ensures SameClasses(old(a.nodes), a.nodes, a.g)
      ensures ctx.diagnostics == old(ctx.diagnostics) + FinishFrom(Viewed(old(a.nodes), a.g, uvars), 0).reports
      ensures FinishFrom(Viewed(old(a.nodes), a.g, uvars), 0).panics ==> r == Abort(I32_PANIC)
      ensures !FinishFrom(Viewed(old(a.nodes), a.g, uvars), 0).panics ==> r == Ok(())
    {
      ghost var ns0 := a.nodes;
      SameClassesRefl(a.nodes, a.g);
      var panicked := FinishLoop(ctx, a, uvars, Viewed(a.nodes, a.g, uvars), ns0, a.g, a.counter);
      if panicked {
        return Abort(I32_PANIC);
      }
      r := Ok(());
    }
  }

  /** The state a check may rely on: the arena is consistent and every type the checker holds
      mentions only its nodes. */
  ghost predicate Ready(env: Env, a: Arena, exp: Type)
    reads env, a
  {
    a.Valid() && Wf(exp, a.g.numeric) && ScopesWf(env.scopes, a.g.numeric) && Wf(env.expectedRet, a.g.numeric)
  }

  /** What a check keeps, from diagnostics `d0`, node flavours `n0`, return type `ret0` and
      recorded variables `u0`: diagnostics and nodes are only added, the return type and the
      recorded variables do not change, and every bound type stays well formed. */
  ghost predicate Grew(ctx: Context, env: Env, a: Arena, d0: seq<Diagnostic>, n0: seq<bool>,
                       ret0: Type, u0: seq<(Type, Position)>)
    reads ctx, env, a
  {
    && a.Valid() && d0 <= ctx.diagnostics && n0 <= a.g.numeric
    && env.expectedRet == ret0 && env.uvars == u0
    && ScopesWf(env.scopes, a.g.numeric) && Wf(ret0, a.g.numeric)
  }

  /** The scope stack has its height and its outer scopes back; only the innermost scope may
      have gained bindings (from a `let` checked in it). */
  ghost predicate ScopesOuter(s0: seq<Scope>, s1: seq<Scope>)
  {
    |s1| == |s0| && (s0 != [] ==> s1[..|s1| - 1] == s0[..|s0| - 1])
  }
}
