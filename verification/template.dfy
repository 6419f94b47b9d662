/** The `${…}` template scanner of `apply_expr`: a cell is cut into literal characters and
    template spans, leftmost first, and every span is replaced by what the expression engine
    makes of its inner text, or by nothing. The engine itself is a parameter. */
module Templates {
  import opened Wrappers
  import opened Text

  /** The variables of one sample (the opcodes of its file name), the expression context. */
  type Vars = map<string, string>

  /** The expression engine: the text of an evaluated expression, or `None` when parsing or
      evaluation fails. */
  type Evaluator = (string, Vars) -> Option<string>

  /** A scanned cell is a sequence of literal characters and template spans. */
  datatype Piece = Lit(c: char) | Span(inner: string)

  /** `s[i..j + 1]` is a template `${inner}`: the inner text is non-empty and holds no `}`. */
  predicate TemplateAt(s: string, i: nat, j: nat) {
    i + 2 < j < |s| && s[i] == '$' && s[i + 1] == '{' && s[j] == '}' && '}' !in s[i + 2..j]
  }

  predicate HasTemplate(s: string) {
    exists i, j :: 0 <= i < j < |s| && TemplateAt(s, i, j)
  }

  /** Where a template starting at the front of `s` closes, if one does. */
  function MatchEnd(s: string): (r: Option<nat>)
    ensures r.Some? ==> TemplateAt(s, 0, r.value)
    ensures r.None? ==> forall j :: !TemplateAt(s, 0, j)
  {
    if |s| >= 2 && s[0] == '$' && s[1] == '{' && '}' in s[2..] then
      var k := FirstIndex(s[2..], '}');
      if k > 0 then
        assert s[2..2 + k] == s[2..][..k];
        Some(2 + k)
      else
        assert forall j: nat :: TemplateAt(s, 0, j) ==> s[2..j][0] == '}';
        None
    else
      None
  }

  /** The regular expression `\$\{([^}]+)\}` scanned left to right without overlaps. */
  function Tokenize(s: string): (ps: seq<Piece>)
    ensures forall k :: 0 <= k < |ps| && ps[k].Span? ==> ps[k].inner != [] && '}' !in ps[k].inner
    decreases |s|
  {
    if s == [] then []
    else
      match MatchEnd(s) {
        case Some(j) => [Span(s[2..j])] + Tokenize(s[j + 1..])
        case None => [Lit(s[0])] + Tokenize(s[1..])
      }
  }

  /** The text the pieces were scanned from. */
  function Render(ps: seq<Piece>): string {
    if ps == [] then []
    else
      match ps[0] {
        case Lit(c) => [c] + Render(ps[1..])
        case Span(inner) => "${" + inner + "}" + Render(ps[1..])
      }
  }

  /** The pieces with every span replaced by `f` of its inner text. */
  function Substitute(ps: seq<Piece>, f: string -> string): string {
    if ps == [] then []
    else
      match ps[0] {
        case Lit(c) => [c] + Substitute(ps[1..], f)
        case Span(inner) => f(inner) + Substitute(ps[1..], f)
      }
  }

  /** What one span becomes: the evaluated text, or `""` without a context or on failure. */
  function SpanText(ctx: Option<Vars>, eval: Evaluator, inner: string): string {
    match ctx {
      case None => ""
      case Some(vars) => eval(inner, vars).GetOr("")
    }
  }

  /** `apply_expr`: the new contents of the cell (the source always returns `Ok`). */
  function ApplyExpr(cell: string, ctx: Option<Vars>, eval: Evaluator): (r: string)
    ensures AllLiterals(Tokenize(cell)) ==> r == cell
  {
    var f := inner => SpanText(ctx, eval, inner);
    LiteralsSubstitute(cell, f);
    Substitute(Tokenize(cell), f)
  }

  /** Substituting into a cell that scans to literals only gives the cell back. */
  lemma LiteralsSubstitute(cell: string, f: string -> string)
    ensures AllLiterals(Tokenize(cell)) ==> Substitute(Tokenize(cell), f) == cell
  {
    if AllLiterals(Tokenize(cell)) {
      SubstituteLiterals(Tokenize(cell), f);
      RenderTokenize(cell);
    }
  }

  /** Scanning loses nothing: the pieces render back to the cell. */
  lemma {:induction false} RenderTokenize(s: string)
    ensures Render(Tokenize(s)) == s
    decreases |s|
  {
    if s != [] {
      match MatchEnd(s) {
        case Some(j) =>
          RenderTokenize(s[j + 1..]);
          RenderFirst(Span(s[2..j]), Tokenize(s[j + 1..]));
          TemplateSplit(s, j);
        case None =>
          RenderTokenize(s[1..]);
          RenderFirst(Lit(s[0]), Tokenize(s[1..]));
          assert s == [s[0]] + s[1..];
      }
    }
  }

  /** A template at the front splits the cell into `${`, the inner text, `}` and the rest. */
  lemma TemplateSplit(s: string, j: nat)
    requires TemplateAt(s, 0, j)
    ensures s == "${" + s[2..j] + "}" + s[j + 1..]
  {
    assert s[..2] == "${" && s[j..j + 1] == "}";
    assert s == s[..2] + s[2..j] + s[j..j + 1] + s[j + 1..];
  }

  lemma RenderFirst(p: Piece, rest: seq<Piece>)
    ensures Render([p] + rest) == (match p case Lit(c) => [c] case Span(inner) => "${" + inner + "}") + Render(rest)
  {
    assert ([p] + rest)[1..] == rest;
  }

  /** Replacing the spans of literal-only pieces changes nothing. */
  lemma {:induction false} SubstituteLiterals(ps: seq<Piece>, f: string -> string)
    requires AllLiterals(ps)
    ensures Substitute(ps, f) == Render(ps)
  {
    if ps != [] {
      SubstituteLiterals(ps[1..], f);
    }
  }

  /** Two replacements that agree on every span give the same text. */
  lemma {:induction false} SubstituteAgree(ps: seq<Piece>, f: string -> string, g: string -> string)
    requires forall k :: 0 <= k < |ps| && ps[k].Span? ==> f(ps[k].inner) == g(ps[k].inner)
    ensures Substitute(ps, f) == Substitute(ps, g)
  {
    if ps != [] {
      SubstituteAgree(ps[1..], f, g);
    }
  }

  /** A template of `s[1..]` is a template of `s` one position later, and back. */
  lemma ShiftTemplate(s: string, i: nat, j: nat)
    requires s != []
    ensures TemplateAt(s[1..], i, j) <==> TemplateAt(s, i + 1, j + 1)
  {
    if i + 2 < j < |s| - 1 {
      assert s[1..][i + 2..j] == s[i + 3..j + 1];
    }
  }

  predicate AllLiterals(ps: seq<Piece>) {
    forall k :: 0 <= k < |ps| ==> ps[k].Lit?
  }

  /** A cell holding a template scans to at least one span. */
  lemma {:induction false} TemplateGivesSpan(s: string)
    requires HasTemplate(s)
    ensures !AllLiterals(Tokenize(s))
    decreases |s|
  {
    if MatchEnd(s).Some? {
      SpanFirst(s);
    } else {
      TemplateLater(s);
      TemplateGivesSpan(s[1..]);
      LitFirst(s);
      LitKeepsSpan(s[0], Tokenize(s[1..]));
    }
  }

  lemma SpanFirst(s: string)
    requires MatchEnd(s).Some?
    ensures !AllLiterals(Tokenize(s))
  {
    assert Tokenize(s)[0].Span?;
  }

  lemma LitFirst(s: string)
    requires s != [] && MatchEnd(s).None?
    ensures Tokenize(s) == [Lit(s[0])] + Tokenize(s[1..])
  {
  }

  /** With no template at the front, every template of the cell is one of its tail. */
  lemma TemplateLater(s: string)
    requires HasTemplate(s) && MatchEnd(s).None?
    ensures s != [] && HasTemplate(s[1..])
  {
    var i: nat, j: nat :| 0 <= i < j < |s| && TemplateAt(s, i, j);
    assert i != 0 by { assert !TemplateAt(s, 0, j); }
    ShiftTemplate(s, i - 1, j - 1);
    assert TemplateAt(s[1..], i - 1, j - 1);
  }

  lemma LitKeepsSpan(c: char, rest: seq<Piece>)
    requires !AllLiterals(rest)
    ensures !AllLiterals([Lit(c)] + rest)
  {
    var k :| 0 <= k < |rest| && rest[k].Span?;
    assert ([Lit(c)] + rest)[k + 1] == rest[k];
  }

  /** A cell without a template scans to literal characters only. */
  lemma {:induction false} NoTemplateGivesLiterals(s: string)
    requires !HasTemplate(s)
    ensures AllLiterals(Tokenize(s))
    decreases |s|
  {
    if s != [] {
      assert !HasTemplate(s[1..]) by {
        forall i: nat, j: nat | 0 <= i < j < |s[1..]| ensures !TemplateAt(s[1..], i, j) {
          ShiftTemplate(s, i, j);
          assert 0 <= i + 1 < j + 1 < |s|;
        }
      }
      NoTemplateGivesLiterals(s[1..]);
      assert Tokenize(s) == [Lit(s[0])] + Tokenize(s[1..]);
    }
  }

  /** The scan finds a span exactly when the cell holds a template somewhere. */
  lemma TemplateFreeIff(s: string)
    ensures !HasTemplate(s) <==> AllLiterals(Tokenize(s))
  {
    if HasTemplate(s) {
      TemplateGivesSpan(s);
    } else {
      NoTemplateGivesLiterals(s);
    }
  }

  /** A cell without a template comes back unchanged, whatever the context. */
  lemma NoTemplateUnchanged(cell: string, ctx: Option<Vars>, eval: Evaluator)
    requires !HasTemplate(cell)
    ensures ApplyExpr(cell, ctx, eval) == cell
  {
    NoTemplateGivesLiterals(cell);
  }

  /** Without a context every span becomes `""`: the result is the same as with a context in
      which every expression fails, and it does not depend on the engine. */
  lemma NoContextClearsSpans(cell: string, vars: Vars, eval: Evaluator, failing: Evaluator)
    requires forall inner :: failing(inner, vars) == None
    ensures ApplyExpr(cell, None, eval) == ApplyExpr(cell, Some(vars), failing)
  {
    SubstituteAgree(Tokenize(cell), inner => SpanText(None, eval, inner), inner => SpanText(Some(vars), failing, inner));
  }

  function Literals(s: string): (ps: seq<Piece>)
    ensures |ps| == |s| && forall k :: 0 <= k < |s| ==> ps[k] == Lit(s[k])
  {
    seq(|s|, k requires 0 <= k < |s| => Lit(s[k]))
  }

  /** Text in which no template starts is literal: it is scanned character by character, even
      when it holds a `$` that opens no template. */
  lemma {:induction false} LeadingText(a: string, b: string)
    requires forall i: nat, j: nat :: i < |a| ==> !TemplateAt(a + b, i, j)
    ensures Tokenize(a + b) == Literals(a) + Tokenize(b)
    decreases |a|
  {
    if a != [] {
      LeadingStep(a, b);
      NoTemplateInTail(a, b);
      LeadingText(a[1..], b);
      LiteralsCons(a);
      ConsAssoc(Tokenize(a + b), Tokenize(a[1..] + b), Lit(a[0]), Literals(a[1..]), Tokenize(b));
    } else {
      assert a + b == b;
    }
  }

  lemma LiteralsCons(a: string)
    requires a != []
    ensures Literals(a) == [Lit(a[0])] + Literals(a[1..])
  {
  }

  lemma ConsAssoc(x: seq<Piece>, y: seq<Piece>, p: Piece, lits: seq<Piece>, t: seq<Piece>)
    requires x == [p] + y && y == lits + t
    ensures x == ([p] + lits) + t
  {
  }

  lemma LeadingStep(a: string, b: string)
    requires a != []
    requires forall j: nat :: !TemplateAt(a + b, 0, j)
    ensures Tokenize(a + b) == [Lit(a[0])] + Tokenize(a[1..] + b)
  {
    var s := a + b;
    assert s[1..] == a[1..] + b;
    assert MatchEnd(s).None?;
    LitFirst(s);
  }

  lemma NoTemplateInTail(a: string, b: string)
    requires a != []
    requires forall i: nat, j: nat :: i < |a| ==> !TemplateAt(a + b, i, j)
    ensures forall i: nat, j: nat :: i < |a[1..]| ==> !TemplateAt(a[1..] + b, i, j)
  {
    var s := a + b;
    assert s[1..] == a[1..] + b;
    forall i: nat, j: nat | i < |a[1..]| ensures !TemplateAt(a[1..] + b, i, j) {
      ShiftTemplate(s, i, j);
      assert !TemplateAt(s, i + 1, j + 1);
    }
  }

  /** Text without `$` starts no template. */
  lemma NoDollarNoTemplate(a: string, b: string)
    requires '$' !in a
    ensures forall i: nat, j: nat :: i < |a| ==> !TemplateAt(a + b, i, j)
  {
    forall i: nat, j: nat | i < |a| ensures !TemplateAt(a + b, i, j) {
      assert (a + b)[i] == a[i];
    }
  }

  /** Text outside the spans is kept: literal text before a cell's templates passes through. */
  lemma {:induction false} SubstituteLeading(a: string, rest: seq<Piece>, f: string -> string)
    ensures Substitute(Literals(a) + rest, f) == a + Substitute(rest, f)
    decreases |a|
  {
    if a != [] {
      assert (Literals(a) + rest)[1..] == Literals(a[1..]) + rest;
      SubstituteLeading(a[1..], rest, f);
    } else {
      assert Literals(a) + rest == rest;
    }
  }

  /** Text at the front of a cell in which no template starts is kept as it is, `$` or not. */
  lemma TextBeforeTemplateKept(a: string, b: string, ctx: Option<Vars>, eval: Evaluator)
    requires forall i: nat, j: nat :: i < |a| ==> !TemplateAt(a + b, i, j)
    ensures ApplyExpr(a + b, ctx, eval) == a + ApplyExpr(b, ctx, eval)
  {
    LeadingText(a, b);
    SubstituteLeading(a, Tokenize(b), inner => SpanText(ctx, eval, inner));
  }

  /** A template at the front of a cell is replaced by the engine's text for its inner part. */
  lemma TemplateAtFront(inner: string, b: string, ctx: Option<Vars>, eval: Evaluator)
    requires inner != [] && '}' !in inner
    ensures ApplyExpr("${" + inner + "}" + b, ctx, eval) == SpanText(ctx, eval, inner) + ApplyExpr(b, ctx, eval)
  {
    var s := "${" + inner + "}" + b;
    var j := |inner| + 2;
    assert s[2..] == inner + "}" + b;
    assert s[2..][|inner|] == '}';
    assert s[2..][..|inner|] == inner;
    assert FirstIndex(s[2..], '}') == |inner|;
    assert MatchEnd(s) == Some(j);
    assert s[2..j] == inner;
    assert s[j + 1..] == b;
  }
}

/** The cell of the `apply_expr` unit test. */
module TemplateExamples {
  import opened Wrappers
  import opened Templates

  lemma ApplyExprExample(vars: Vars, eval: Evaluator, x: string)
    requires eval("v/l*127", vars) == Some(x)
    ensures ApplyExpr("This is ${v/l*127}.", Some(vars), eval) == "This is " + x + "."
  {
    assert "This is ${v/l*127}." == "This is " + ("${" + "v/l*127" + "}" + ".");
    NoDollarNoTemplate("This is ", "${" + "v/l*127" + "}" + ".");
    OneTemplate("This is ", "v/l*127", ".", Some(vars), eval);
  }

  /** A cell made of text in which no template starts, one template, and template-free text:
      only the template is replaced. */
  lemma OneTemplate(a: string, inner: string, b: string, ctx: Option<Vars>, eval: Evaluator)
    requires inner != [] && '}' !in inner && !HasTemplate(b)
    requires forall i: nat, j: nat :: i < |a| ==> !TemplateAt(a + ("${" + inner + "}" + b), i, j)
    ensures ApplyExpr(a + ("${" + inner + "}" + b), ctx, eval) == a + SpanText(ctx, eval, inner) + b
  {
    TextBeforeTemplateKept(a, "${" + inner + "}" + b, ctx, eval);
    TemplateAtFront(inner, b, ctx, eval);
    NoTemplateUnchanged(b, ctx, eval);
  }

  /** A `$` that opens no template stays: in `$5 ${x}` only `${x}` is replaced. */
  lemma DollarKept(ctx: Option<Vars>, eval: Evaluator)
    ensures ApplyExpr("$5 ${x}", ctx, eval) == "$5 " + SpanText(ctx, eval, "x")
  {
    var a, t := "$5 ", "${" + "x" + "}" + "";
    assert "$5 ${x}" == a + t;
    forall i: nat, j: nat | i < |a| ensures !TemplateAt(a + t, i, j) {
      assert (a + t)[0] == '$' && (a + t)[1] == '5' && (a + t)[2] == ' ' && (a + t)[3] == '$';
    }
    assert !HasTemplate("");
    OneTemplate(a, "x", "", ctx, eval);
  }
}
