/**
  The `tracing::new` attribute macro (`azure_core_macros::tracing_new`): which function bodies it accepts,
  and how it rewrites their statements so that the client literal gets a `tracer` field.

  Types, token text and everything the macro does not look at are opaque strings. A rewritten statement is a
  stream of tokens; its meaning is what the compiler reads back from it.
  */
module TracingNew {
  import opened Basics

  // ---------- Syntax ----------

  datatype Segment = Segment(ident: string, hasArguments: bool)

  datatype AnyPath = Path(leadingColon: bool, segments: seq<Segment>)

  type Path = p: AnyPath | |p.segments| > 0 witness AnyPath.Path(false, [Segment("Self", false)])

  datatype FieldInit = FieldInit(name: string, value: string)

  datatype Expr =
    | Struct(path: Path, fields: seq<FieldInit>, base: Option<string>)
    | Call(func: Expr, args: seq<Expr>)
    | PathExpr(path: Path)
    | OtherExpr(text: string)

  datatype Stmt = ExprStmt(expr: Expr, semicolon: bool) | OtherStmt(text: string)

  /** `Path::is_ident`: one plain segment. */
  predicate IsIdent(path: Path, ident: string) {
    !path.leadingColon && path.segments == [Segment(ident, false)]
  }

  predicate LastIs(path: Path, ident: string) {
    path.segments[|path.segments| - 1].ident == ident
  }

  predicate IsSelfLiteral(e: Expr) {
    e.Struct? && IsIdent(e.path, "Self")
  }

  /** A path that ends in `Arc::new`. */
  predicate IsArcNew(func: Expr) {
    func.PathExpr? && |func.path.segments| >= 2 && func.path.segments[|func.path.segments| - 2].ident == "Arc" && LastIs(func.path, "new")
  }

  // ---------- Which bodies are accepted ----------

  datatype Verdict = Accepted | Rejected | Panics

  function Judge(ok: bool): Verdict {
    if ok then Accepted else Rejected
  }

  function IsValidOkCall(args: seq<Expr>): Verdict {
    if |args| != 1 then Rejected
    else if args[0].Struct? then Judge(IsSelfLiteral(args[0]))
    else if args[0].Call? then
      if |args[0].args| != 1 then Rejected
      else if IsArcNew(args[0].func) then Judge(IsSelfLiteral(args[0].args[0]))
      else Rejected
    else Rejected
  }

  /** An `Arc::new` call without arguments makes the last-argument `unwrap` panic. */
  function IsValidNewBody(stmts: seq<Stmt>): Verdict {
    if |stmts| == 0 || !stmts[|stmts| - 1].ExprStmt? then Rejected
    else
      var e := stmts[|stmts| - 1].expr;
      if e.Struct? then Judge(IsSelfLiteral(e))
      else if e.Call? && e.func.PathExpr? then
        if IsIdent(e.func.path, "Ok") then IsValidOkCall(e.args)
        else if IsArcNew(e.func) then if |e.args| == 0 then Panics else Judge(IsSelfLiteral(e.args[|e.args| - 1]))
        else Rejected
      else Rejected
  }

  // ---------- Rewriting ----------

  /** Between the braces of an emitted literal. */
  datatype Token = Init(field: FieldInit) | Comma

  datatype Emitted = Literal(inner: seq<Token>) | OkOf(arg: Emitted) | ArcOf(arg: Emitted) | Same(expr: Expr)

  datatype EmittedStmt = Keep(stmt: Stmt) | New(emitted: Emitted)

  const TRACER := "tracer"

  function TracerInit(namespace: string): FieldInit {
    FieldInit(TRACER, namespace)
  }

  /** The repetition `#(#fields),*`. */
  function Separated(fields: seq<FieldInit>): seq<Token> {
    if |fields| == 0 then []
    else if |fields| == 1 then [Init(fields[0])]
    else [Init(fields[0]), Comma] + Separated(fields[1..])
  }

  /** `Self { tracer: ..., fields, }`; what follows `..` is not emitted. */
  function SelfTokens(namespace: string, fields: seq<FieldInit>): Emitted {
    Literal([Init(TracerInit(namespace)), Comma] + Separated(fields) + [Comma])
  }

  function ParseStructExpr(namespace: string, literal: Expr, default: Emitted, isOk: bool): Emitted
    requires literal.Struct?
  {
    if IsSelfLiteral(literal) then
      if isOk then OkOf(SelfTokens(namespace, literal.fields)) else SelfTokens(namespace, literal.fields)
    else default
  }

  function ParseCallExpr(namespace: string, call: Expr): Option<Emitted>
    requires call.Call? && |call.args| == 1
    decreases call
  {
    var arg := call.args[0];
    if !call.func.PathExpr? then None
    else if LastIs(call.func.path, "Ok") then
      if arg.Struct? then Some(ParseStructExpr(namespace, arg, Same(call), true))
      else if arg.Call? && |arg.args| == 1 && IsArcNew(arg.func) then
        match ParseCallExpr(namespace, arg)
        case None => None
        case Some(e) => Some(OkOf(e))
      else None
    else if IsArcNew(call.func) && arg.Struct? then Some(ArcOf(ParseStructExpr(namespace, arg, Same(call), false)))
    else None
  }

  function RewriteStmt(namespace: string, stmt: Stmt): EmittedStmt {
    if !stmt.ExprStmt? then Keep(stmt)
    else if stmt.expr.Call? && |stmt.expr.args| == 1 then
      match ParseCallExpr(namespace, stmt.expr)
      case None => Keep(stmt)
      case Some(e) => New(e)
    else if stmt.expr.Struct? && IsSelfLiteral(stmt.expr) then New(SelfTokens(namespace, stmt.expr.fields))
    else Keep(stmt)
  }

  function Rewrite(namespace: string, stmts: seq<Stmt>): (emitted: seq<EmittedStmt>)
    ensures |emitted| == |stmts|
    ensures forall i :: 0 <= i < |stmts| ==> emitted[i] == RewriteStmt(namespace, stmts[i])
  {
    if |stmts| == 0 then [] else Rewrite(namespace, stmts[..|stmts| - 1]) + [RewriteStmt(namespace, stmts[|stmts| - 1])]
  }

  /** The macro: nothing is emitted unless the body is accepted. */
  function ParseNew(namespace: string, stmts: seq<Stmt>): Option<seq<EmittedStmt>> {
    if IsValidNewBody(stmts).Accepted? then Some(Rewrite(namespace, stmts)) else None
  }

  // ---------- What the compiler reads back ----------

  /** Field initializers separated by commas, with an optional last comma; `None` is a syntax error. */
  function ReadFields(tokens: seq<Token>): Option<seq<FieldInit>> {
    if |tokens| == 0 then Some([])
    else if !tokens[0].Init? then None
    else if |tokens| == 1 then Some([tokens[0].field])
    else if !tokens[1].Comma? then None
    else
      match ReadFields(tokens[2..])
      case None => None
      case Some(rest) => Some([tokens[0].field] + rest)
  }

  function PlainPath(idents: seq<string>): (path: Path)
    requires |idents| > 0
    ensures !path.leadingColon && |path.segments| == |idents|
    ensures forall i :: 0 <= i < |idents| ==> path.segments[i] == Segment(idents[i], false)
  {
    if |idents| == 1 then AnyPath.Path(false, [Segment(idents[0], false)])
    else AnyPath.Path(false, PlainPath(idents[..|idents| - 1]).segments + [Segment(idents[|idents| - 1], false)])
  }

  function Read(e: Emitted): Option<Expr> {
    match e
    case Same(expr) => Some(expr)
    case Literal(inner) =>
      (match ReadFields(inner)
       case None => None
       case Some(fields) => Some(Struct(PlainPath(["Self"]), fields, None)))
    case OkOf(arg) =>
      (match Read(arg)
       case None => None
       case Some(expr) => Some(Call(PathExpr(PlainPath(["Ok"])), [expr])))
    case ArcOf(arg) =>
      (match Read(arg)
       case None => None
       case Some(expr) => Some(Call(PathExpr(PlainPath(["Arc", "new"])), [expr])))
  }

  /** A rewritten statement is emitted without a semicolon. */
  function ReadStmt(s: EmittedStmt): Option<Stmt> {
    match s
    case Keep(stmt) => Some(stmt)
    case New(emitted) =>
      match Read(emitted)
      case None => None
      case Some(expr) => Some(ExprStmt(expr, false))
  }

  // ---------- The tail ----------

  /** Accepted tails: the literal itself, or the last argument of `Ok` or `Arc::new`, or both. */
  predicate IsTail(e: Expr) {
    || IsSelfLiteral(e)
    || (IsOkCall(e) && |e.args| == 1 && (IsSelfLiteral(e.args[0]) || (IsArcCall(e.args[0]) && |e.args[0].args| == 1)))
    || IsArcCall(e)
  }

  predicate IsOkCall(e: Expr) {
    e.Call? && e.func.PathExpr? && IsIdent(e.func.path, "Ok")
  }

  predicate IsArcCall(e: Expr) {
    e.Call? && IsArcNew(e.func) && |e.args| > 0 && IsSelfLiteral(e.args[|e.args| - 1])
  }

  /** A body is accepted exactly when its last statement is one of these tails. */
  lemma AcceptedIff(stmts: seq<Stmt>)
    ensures IsValidNewBody(stmts).Accepted? <==> |stmts| > 0 && stmts[|stmts| - 1].ExprStmt? && IsTail(stmts[|stmts| - 1].expr)
  {
    if |stmts| > 0 && stmts[|stmts| - 1].ExprStmt? {
      var e := stmts[|stmts| - 1].expr;
      assert e.Call? && IsArcNew(e.func) ==> !IsIdent(e.func.path, "Ok");
    }
  }

  /** The literal inside a tail. */
  function SelfOf(e: Expr): (literal: Expr)
    requires IsTail(e)
    ensures IsSelfLiteral(literal)
  {
    if e.Struct? then e
    else
      var arg := e.args[|e.args| - 1];
      if arg.Struct? then arg else arg.args[0]
  }

  function AddTracer(namespace: string, literal: Expr): Expr
    requires literal.Struct?
  {
    literal.(fields := [TracerInit(namespace)] + literal.fields)
  }

  /** The tail as it should become: its literal starts with the tracer, and nothing else changes. */
  function WithTracer(namespace: string, e: Expr): Expr
    requires IsTail(e)
  {
    if e.Struct? then AddTracer(namespace, e)
    else
      var last := |e.args| - 1;
      var arg := e.args[last];
      if arg.Struct? then e.(args := e.args[last := AddTracer(namespace, arg)])
      else e.(args := [arg.(args := [AddTracer(namespace, arg.args[0])])])
  }

  lemma {:induction false} SeparatedReads(fields: seq<FieldInit>)
    ensures ReadFields(Separated(fields) + [Comma]) == if |fields| == 0 then None else Some(fields)
  {
    if |fields| == 0 {
      assert Separated(fields) + [Comma] == [Comma];
    } else if |fields| == 1 {
      var tokens := Separated(fields) + [Comma];
      assert tokens == [Init(fields[0]), Comma] && tokens[2..] == [];
      assert [fields[0]] + [] == fields;
    } else {
      SeparatedReads(fields[1..]);
      var tokens := Separated(fields) + [Comma];
      assert tokens[2..] == Separated(fields[1..]) + [Comma];
      assert [fields[0]] + fields[1..] == fields;
    }
  }

  /** The emitted literal is read back with the tracer first, unless it had no fields: then two commas meet. */
  lemma LiteralReads(namespace: string, fields: seq<FieldInit>)
    ensures Read(SelfTokens(namespace, fields)) ==
            if |fields| == 0 then None else Some(Struct(PlainPath(["Self"]), [TracerInit(namespace)] + fields, None))
  {
    SeparatedReads(fields);
    var tokens := [Init(TracerInit(namespace)), Comma] + Separated(fields) + [Comma];
    assert tokens[2..] == Separated(fields) + [Comma];
  }

  lemma WrappedReads(e: Emitted)
    ensures Read(e).None? ==> Read(ArcOf(e)).None? && Read(OkOf(e)).None?
    ensures Read(e).Some? ==> Read(ArcOf(e)) == Some(Call(PathExpr(PlainPath(["Arc", "new"])), [Read(e).value]))
    ensures Read(e).Some? ==> Read(OkOf(e)) == Some(Call(PathExpr(PlainPath(["Ok"])), [Read(e).value]))
  {
  }

  predicate OneArgument(e: Expr) {
    e.Struct? || (e.Call? && |e.args| == 1)
  }

  /** How the tail is emitted. */
  lemma TailEmitted(namespace: string, stmt: Stmt)
    requires stmt.ExprStmt? && IsTail(stmt.expr)
    ensures var literal := SelfTokens(namespace, SelfOf(stmt.expr).fields);
            RewriteStmt(namespace, stmt) ==
            if !OneArgument(stmt.expr) then Keep(stmt)
            else if stmt.expr.Struct? then New(literal)
            else if IsArcNew(stmt.expr.func) then New(ArcOf(literal))
            else if stmt.expr.args[0].Struct? then New(OkOf(literal))
            else New(OkOf(ArcOf(literal)))
  {
    hide SelfTokens;
    var e := stmt.expr;
    assert e.Call? && IsArcNew(e.func) ==> !LastIs(e.func.path, "Ok");
    if e.Call? && |e.args| == 1 && e.args[0].Call? {
      assert IsArcNew(e.args[0].func) && !LastIs(e.args[0].func.path, "Ok");
      assert ParseCallExpr(namespace, e.args[0]) == Some(ArcOf(SelfTokens(namespace, SelfOf(e).fields)));
    }
  }

  /** The callee is written `Arc::new`, without a longer path or type arguments. */
  predicate IsPlainArc(func: Expr) {
    func.PathExpr? && !func.path.leadingColon && func.path.segments == [Segment("Arc", false), Segment("new", false)]
  }

  /** Every `Arc` call of the tail is written so. */
  predicate HasPlainArcs(e: Expr)
    requires IsTail(e)
  {
    e.Call? ==> (IsArcNew(e.func) ==> IsPlainArc(e.func)) && (e.args[|e.args| - 1].Call? ==> IsPlainArc(e.args[|e.args| - 1].func))
  }

  lemma PlainPaths(func: Expr, literal: Expr)
    ensures IsPlainArc(func) <==> func == PathExpr(PlainPath(["Arc", "new"]))
    ensures func.PathExpr? && IsIdent(func.path, "Ok") <==> func == PathExpr(PlainPath(["Ok"]))
    ensures IsSelfLiteral(literal) ==> literal.path == PlainPath(["Self"])
  {
    assert PlainPath(["Arc", "new"]).segments == [Segment("Arc", false), Segment("new", false)];
    assert PlainPath(["Ok"]).segments == [Segment("Ok", false)];
    assert PlainPath(["Self"]).segments == [Segment("Self", false)];
  }

  /** What the rewritten literal reads back as, against what it should be. */
  lemma LiteralIsRightIff(namespace: string, literal: Expr)
    requires IsSelfLiteral(literal)
    ensures Read(SelfTokens(namespace, literal.fields)) == Some(AddTracer(namespace, literal)) <==> |literal.fields| > 0 && literal.base == None
  {
    PlainPaths(literal, literal);
    LiteralReads(namespace, literal.fields);
  }

  lemma ArcIsRightIff(namespace: string, call: Expr)
    requires IsArcCall(call) && |call.args| == 1
    ensures var literal := call.args[0];
            Read(ArcOf(SelfTokens(namespace, literal.fields))) == Some(call.(args := [AddTracer(namespace, literal)]))
            <==> IsPlainArc(call.func) && |literal.fields| > 0 && literal.base == None
  {
    hide PlainPath, SelfTokens, Read;
    var literal := call.args[0];
    LiteralIsRightIff(namespace, literal);
    WrappedReads(SelfTokens(namespace, literal.fields));
    PlainPaths(call.func, literal);
    var wanted := call.(args := [AddTracer(namespace, literal)]);
    assert wanted.args[0] == AddTracer(namespace, literal);
  }

  lemma OkIsRightIff(namespace: string, call: Expr, inner: Emitted, arg: Expr)
    requires IsOkCall(call)
    ensures Read(OkOf(inner)) == Some(call.(args := [arg])) <==> Read(inner) == Some(arg)
  {
    hide PlainPath, Read;
    WrappedReads(inner);
    PlainPaths(call.func, arg);
    var wanted := call.(args := [arg]);
    assert wanted.args[0] == arg;
  }

  /** For one tail: it becomes itself with the tracer in its literal iff nothing is lost on the way. */
  lemma TailIsRightIff(namespace: string, stmt: Stmt)
    requires stmt.ExprStmt? && IsTail(stmt.expr)
    ensures (ReadStmt(RewriteStmt(namespace, stmt)) == Some(stmt.(expr := WithTracer(namespace, stmt.expr))))
            <==> OneArgument(stmt.expr) && HasPlainArcs(stmt.expr) && !stmt.semicolon
                 && |SelfOf(stmt.expr).fields| > 0 && SelfOf(stmt.expr).base == None
  {
    TailEmitted(namespace, stmt);
    hide RewriteStmt, Read, SelfTokens, PlainPath;
    var e := stmt.expr;
    var literal := SelfOf(e);
    LiteralIsRightIff(namespace, literal);
    if e.Call? {
      var last := |e.args| - 1;
      if !OneArgument(e) {
        assert WithTracer(namespace, e).args[last] == AddTracer(namespace, literal) && |AddTracer(namespace, literal).fields| == |literal.fields| + 1;
      } else {
        assert e.args[0 := AddTracer(namespace, literal)] == [AddTracer(namespace, literal)];
        if IsArcNew(e.func) {
          ArcIsRightIff(namespace, e);
        } else if e.args[0].Struct? {
          OkIsRightIff(namespace, e, SelfTokens(namespace, literal.fields), AddTracer(namespace, literal));
        } else {
          ArcIsRightIff(namespace, e.args[0]);
          OkIsRightIff(namespace, e, ArcOf(SelfTokens(namespace, literal.fields)), e.args[0].(args := [AddTracer(namespace, literal)]));
        }
      }
    }
  }

  /**
    For every body the macro accepts, the last statement is read back as it was written except for the tracer, which is the first
    field of its literal, iff its call has one argument, each `Arc` call is written plainly, no semicolon follows, and
    the literal has a field and no base.
    */
  lemma TailGetsTracerIff(namespace: string, stmts: seq<Stmt>)
    requires ParseNew(namespace, stmts).Some?
    ensures |ParseNew(namespace, stmts).value| == |stmts| > 0 && stmts[|stmts| - 1].ExprStmt? && IsTail(stmts[|stmts| - 1].expr)
    ensures var stmt := stmts[|stmts| - 1];
            (ReadStmt(ParseNew(namespace, stmts).value[|stmts| - 1]) == Some(stmt.(expr := WithTracer(namespace, stmt.expr))))
            <==> OneArgument(stmt.expr) && HasPlainArcs(stmt.expr) && !stmt.semicolon
                 && |SelfOf(stmt.expr).fields| > 0 && SelfOf(stmt.expr).base == None
  {
    hide IsValidNewBody, RewriteStmt, ReadStmt;
    AcceptedIff(stmts);
    TailIsRightIff(namespace, stmts[|stmts| - 1]);
  }

  /** An `Arc` written with its full path is accepted and loses the path. */
  lemma QualifiedArc(namespace: string, field: FieldInit)
    ensures var path := PlainPath(["std", "sync", "Arc", "new"]);
            var stmt := ExprStmt(Call(PathExpr(path), [Struct(PlainPath(["Self"]), [field], None)]), false);
            && ParseNew(namespace, [stmt]).Some?
            && var read := ReadStmt(ParseNew(namespace, [stmt]).value[0]);
               read.Some? && read.value.ExprStmt? && read.value.expr.Call? && read.value.expr.func == PathExpr(PlainPath(["Arc", "new"])) != stmt.expr.func
  {
    hide PlainPath;
    var literal := Struct(PlainPath(["Self"]), [field], None);
    var stmt := ExprStmt(Call(PathExpr(PlainPath(["std", "sync", "Arc", "new"])), [literal]), false);
    PlainPaths(stmt.expr.func, literal);
    assert PlainPath(["Self"]).segments == [Segment("Self", false)];
    assert IsArcNew(stmt.expr.func) && !IsIdent(stmt.expr.func.path, "Ok");
    TailEmitted(namespace, stmt);
    LiteralReads(namespace, [field]);
    WrappedReads(SelfTokens(namespace, [field]));
    assert |PlainPath(["std", "sync", "Arc", "new"]).segments| == 4 && |PlainPath(["Arc", "new"]).segments| == 2;
  }

  function Tracers(fields: seq<FieldInit>): nat {
    if |fields| == 0 then 0 else (if fields[0].name == TRACER then 1 else 0) + Tracers(fields[1..])
  }

  /** The result is again an accepted tail; its literal has one tracer more, which is the first field. */
  lemma TracerAdded(namespace: string, e: Expr)
    requires IsTail(e)
    ensures IsTail(WithTracer(namespace, e))
    ensures SelfOf(WithTracer(namespace, e)).fields == [TracerInit(namespace)] + SelfOf(e).fields
    ensures Tracers(SelfOf(WithTracer(namespace, e)).fields) == 1 + Tracers(SelfOf(e).fields)
  {
    hide Tracers;
    OneMoreTracer(namespace, SelfOf(e).fields);
  }

  lemma OneMoreTracer(namespace: string, fields: seq<FieldInit>)
    ensures Tracers([TracerInit(namespace)] + fields) == 1 + Tracers(fields)
  {
    assert ([TracerInit(namespace)] + fields)[1..] == fields;
  }

  // ---------- The other statements ----------

  /** Statements that are not read back as they were. */
  predicate Touched(stmt: Stmt) {
    && stmt.ExprStmt?
    && (|| IsSelfLiteral(stmt.expr)
        || (&& stmt.expr.Call? && |stmt.expr.args| == 1 && stmt.expr.func.PathExpr?
            && var arg := stmt.expr.args[0];
               if LastIs(stmt.expr.func.path, "Ok") then
                 || (arg.Struct? && (IsSelfLiteral(arg) || stmt.semicolon))
                 || (arg.Call? && |arg.args| == 1 && IsArcNew(arg.func) && arg.args[0].Struct?)
               else IsArcNew(stmt.expr.func) && arg.Struct?))
  }

  /** `Ok` around a literal. */
  lemma OkOfLiteral(namespace: string, call: Expr, semicolon: bool)
    requires call.Call? && |call.args| == 1 && call.func.PathExpr? && LastIs(call.func.path, "Ok") && call.args[0].Struct?
    ensures ReadStmt(RewriteStmt(namespace, ExprStmt(call, semicolon))) == Some(ExprStmt(call, semicolon))
            <==> !Touched(ExprStmt(call, semicolon))
  {
    hide SelfTokens, PlainPath;
    var literal := call.args[0];
    LiteralReads(namespace, literal.fields);
    WrappedReads(SelfTokens(namespace, literal.fields));
    var read := Read(OkOf(SelfTokens(namespace, literal.fields)));
    assert read.Some? ==> |read.value.args[0].fields| == |literal.fields| + 1;
  }

  /** `Arc::new` around a literal, alone or inside `Ok`, is always changed. */
  lemma ArcOfLiteral(namespace: string, call: Expr)
    requires call.Call? && |call.args| == 1 && IsArcNew(call.func) && call.args[0].Struct?
    ensures ParseCallExpr(namespace, call).Some?
    ensures Read(ParseCallExpr(namespace, call).value) != Some(call)
    ensures !IsSelfLiteral(call.args[0]) ==>
              Read(ParseCallExpr(namespace, call).value) == Some(Call(PathExpr(PlainPath(["Arc", "new"])), [call]))
  {
    hide SelfTokens, PlainPath;
    assert !LastIs(call.func.path, "Ok");
    var literal := call.args[0];
    LiteralReads(namespace, literal.fields);
    WrappedReads(SelfTokens(namespace, literal.fields));
    WrappedReads(Same(call));
    var read := Read(ArcOf(SelfTokens(namespace, literal.fields)));
    assert read.Some? ==> |read.value.args[0].fields| == |literal.fields| + 1;
    var doubled := Call(PathExpr(PlainPath(["Arc", "new"])), [call]);
    assert doubled.args[0].Call? && call.args[0].Struct?;
  }

  lemma OkOfArc(namespace: string, call: Expr)
    requires call.Call? && |call.args| == 1 && call.func.PathExpr? && LastIs(call.func.path, "Ok")
    requires call.args[0].Call? && |call.args[0].args| == 1 && IsArcNew(call.args[0].func) && call.args[0].args[0].Struct?
    ensures ParseCallExpr(namespace, call).Some?
    ensures Read(ParseCallExpr(namespace, call).value) != Some(call)
  {
    ArcOfLiteral(namespace, call.args[0]);
    hide PlainPath, ParseStructExpr;
    var inner := ParseCallExpr(namespace, call.args[0]).value;
    assert ParseCallExpr(namespace, call) == Some(OkOf(inner));
    WrappedReads(inner);
    assert Read(OkOf(inner)).Some? ==> Read(OkOf(inner)).value.args[0] == Read(inner).value;
  }

  /** Every statement is read back unchanged iff it is not touched; in particular all `let`s and all calls with other arguments are. */
  lemma UntouchedIff(namespace: string, stmt: Stmt)
    ensures ReadStmt(RewriteStmt(namespace, stmt)) == Some(stmt) <==> !Touched(stmt)
  {
    if !stmt.ExprStmt? {
      return;
    }
    hide SelfTokens, PlainPath, ParseStructExpr;
    var e := stmt.expr;
    if e.Struct? {
      LiteralReads(namespace, e.fields);
      assert IsSelfLiteral(e) && |e.fields| > 0 ==> |Read(SelfTokens(namespace, e.fields)).value.fields| == |e.fields| + 1;
    } else if e.Call? && |e.args| == 1 && e.func.PathExpr? {
      CallUntouchedIff(namespace, e, stmt.semicolon);
    }
  }

  lemma CallUntouchedIff(namespace: string, e: Expr, semicolon: bool)
    requires e.Call? && |e.args| == 1 && e.func.PathExpr?
    ensures ReadStmt(RewriteStmt(namespace, ExprStmt(e, semicolon))) == Some(ExprStmt(e, semicolon)) <==> !Touched(ExprStmt(e, semicolon))
  {
    hide SelfTokens, PlainPath, ParseStructExpr, Read;
    var arg := e.args[0];
    if LastIs(e.func.path, "Ok") {
      if arg.Struct? {
        OkOfLiteral(namespace, e, semicolon);
      } else if arg.Call? && |arg.args| == 1 && IsArcNew(arg.func) {
        if arg.args[0].Struct? {
          OkOfArc(namespace, e);
        } else {
          assert !LastIs(arg.func.path, "Ok");
          assert ParseCallExpr(namespace, arg) == None;
        }
      }
    } else if IsArcNew(e.func) && arg.Struct? {
      ArcOfLiteral(namespace, e);
    }
  }

  /** Of an accepted body, every statement is emitted unchanged iff it is not touched. */
  lemma BodyUntouchedIff(namespace: string, stmts: seq<Stmt>, i: nat)
    requires ParseNew(namespace, stmts).Some? && i < |stmts|
    ensures |ParseNew(namespace, stmts).value| == |stmts|
    ensures ReadStmt(ParseNew(namespace, stmts).value[i]) == Some(stmts[i]) <==> !Touched(stmts[i])
  {
    hide RewriteStmt, ReadStmt, Touched;
    UntouchedIff(namespace, stmts[i]);
  }

  /** An empty literal is emitted with two commas in a row, which is not a literal. */
  lemma EmptyLiteral(namespace: string, stmt: Stmt)
    requires stmt.ExprStmt? && IsSelfLiteral(stmt.expr) && stmt.expr.fields == []
    ensures IsValidNewBody([stmt]).Accepted? && ReadStmt(RewriteStmt(namespace, stmt)) == None
  {
    LiteralReads(namespace, []);
  }
}
