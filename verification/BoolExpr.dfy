/**
  The evaluator of Boolean verifier expressions (src/LibBoolEE.cpp). It has no
  grammar: it splits a string at the top-level operators, again and again.

  The grammar it understands is given here as a type of syntax trees:
    Text ::= junk Expr,  Expr ::= Term ('|' Term)*,
    Term ::= Factor ('&' Factor)* | '&' Term,
    Factor ::= '!' Factor | '(' Text ')' | name.
  Junk is any text without names, '!' and parentheses; it is passed over, but
  only before several terms or factors. So are the ampersands before a term that
  follows a '|'. Without junk and such ampersands the grammar is the documented
  one.
*/
module BoolExpr {
  import opened Ascii

  datatype Error = EmptySubExpression | UnknownOperator | ParenthesisParity | InvalidName | VariableNotFound

  datatype Result<T> = Ok(value: T) | Err(error: Error)

  type Vals = map<string, bool>

  // ----- Characters -----

  predicate BelongsToName(c: char) {
    '0' <= c <= '9' || 'a' <= c <= 'z' || 'A' <= c <= 'Z' || c == '_' || c == '#' || c == '.'
  }

  function RemoveWhitespaces(s: string): (r: string)
    ensures |r| <= |s|
    ensures forall i :: 0 <= i < |r| ==> !IsSpace(r[i])
  {
    if s == "" then ""
    else
      var rest := RemoveWhitespaces(s[..|s| - 1]);
      if IsSpace(s[|s| - 1]) then rest else rest + [s[|s| - 1]]
  }

  lemma {:induction false} NothingToRemove(s: string)
    requires forall i :: 0 <= i < |s| ==> !IsSpace(s[i])
    ensures RemoveWhitespaces(s) == s
  {
    if s != "" {
      NothingToRemove(s[..|s| - 1]);
      assert s == s[..|s| - 1] + [s[|s| - 1]];
    }
  }

  // ----- Splitting -----

  /** singleParse from position i on; `start` is -1 before the first part. */
  function Scan(formula: string, op: char, i: nat, start: int, parity: int, subs: seq<string>): Result<seq<string>>
    requires i <= |formula| && -1 <= start <= i
    decreases |formula| - i
  {
    if i == |formula| then
      var all := if start != -1 then subs + [formula[start..]] else subs;
      if parity != 0 then Err(ParenthesisParity) else Ok(all)
    else
      var c := formula[i];
      if c == ')' then Scan(formula, op, i + 1, start, parity - 1, subs)
      else if c == '(' then Scan(formula, op, i + 1, if start == -1 then i else start, parity + 1, subs)
      else if parity != 0 then Scan(formula, op, i + 1, start, parity, subs)
      else if start == -1 then
        Scan(formula, op, i + 1, if BelongsToName(c) || c == '!' then i else -1, parity, subs)
      else if BelongsToName(c) || c == '!' then Scan(formula, op, i + 1, start, parity, subs)
      else if c == op then Scan(formula, op, i + 1, i + 1, parity, subs + [formula[start..i]])
      else if c != '&' && c != '|' then Err(UnknownOperator)
      else Scan(formula, op, i + 1, start, parity, subs)
  }

  function SingleParse(formula: string, op: char): Result<seq<string>> {
    Scan(formula, op, 0, -1, 0, [])
  }

  /** Parts never overlap the operators between them: they are shorter than the
      formula as soon as there are two. */
  lemma {:induction false} ScanShorter(formula: string, op: char, i: nat, start: int, parity: int, subs: seq<string>)
    requires i <= |formula| && -1 <= start <= i
    requires forall k :: 0 <= k < |subs| ==> |subs[k]| < |formula|
    requires subs != [] ==> start > 0
    ensures var r := Scan(formula, op, i, start, parity, subs);
      r.Ok? ==> forall k :: 0 <= k < |r.value| ==>
        |r.value[k]| <= |formula| && (|r.value| > 1 ==> |r.value[k]| < |formula|)
    decreases |formula| - i
  {
    if i < |formula| {
      var c := formula[i];
      if c == ')' {
        ScanShorter(formula, op, i + 1, start, parity - 1, subs);
      } else if c == '(' {
        ScanShorter(formula, op, i + 1, if start == -1 then i else start, parity + 1, subs);
      } else if parity != 0 {
        ScanShorter(formula, op, i + 1, start, parity, subs);
      } else if start == -1 {
        ScanShorter(formula, op, i + 1, if BelongsToName(c) || c == '!' then i else -1, parity, subs);
      } else if BelongsToName(c) || c == '!' || c != op {
        if BelongsToName(c) || c == '!' || c == '&' ||
          c == '|' { ScanShorter(formula, op, i + 1, start, parity, subs); }
      } else {
        ScanShorter(formula, op, i + 1, i + 1, parity, subs + [formula[start..i]]);
      }
    }
  }

  // ----- Evaluation -----

  /** resolve: the truth value, or the error that is thrown. Every recursive
      call has a shorter argument, whatever the string. */
  function Resolve(source: string, vals: Vals): (r: Result<bool>)
    decreases |source|, 1
  {
    ResolveRec(RemoveWhitespaces(source), vals)
  }

  function ResolveRec(source: string, vals: Vals): (r: Result<bool>)
    decreases |source|, 0
  {
    if source == "" then Err(EmptySubExpression)
    else
      var byOr := SingleParse(source, '|');
      if byOr.Err? then Err(byOr.error)
      else
        ScanShorter(source, '|', 0, -1, 0, []);
        if |byOr.value| > 1 then ResolveAll(source, '|', byOr.value, vals)
        else if |byOr.value| == 0 then Err(InvalidName)
        else
          var byAnd := SingleParse(source, '&');
          if byAnd.Err? then Err(byAnd.error)
          else
            ScanShorter(source, '&', 0, -1, 0, []);
            if |byAnd.value| > 1 then ResolveAll(source, '&', byAnd.value, vals)
            else if |byAnd.value| == 0 then Err(InvalidName)
            else ResolveOne(source, vals)
  }

  /** No operator on the top level. */
  function ResolveOne(source: string, vals: Vals): (r: Result<bool>)
    requires source != ""
    decreases |source|, -1
  {
    if source[0] == '!' then
      var r := Resolve(source[1..], vals);
      if r.Ok? then Ok(!r.value) else r
    else if source[0] == '(' then
      Resolve(if |source| >= 2 then source[1..|source| - 1] else "", vals)
    else if source == "1" then Ok(true)
    else if source == "0" then Ok(false)
    else if source !in vals then Err(VariableNotFound)
    else Ok(vals[source])
  }

  /** All parts are evaluated, in order; the first error is thrown. */
  function ResolveAll(source: string, op: char, parts: seq<string>, vals: Vals): (r: Result<bool>)
    requires forall k :: 0 <= k < |parts| ==> |parts[k]| < |source|
    decreases |source|, -1, |parts|
  {
    if parts == [] then Ok(op == '&')
    else
      var before := ResolveAll(source, op, parts[..|parts| - 1], vals);
      if before.Err? then before
      else
        var last := Resolve(parts[|parts| - 1], vals);
        if last.Err? then last
        else Ok(if op == '|' then before.value || last.value else before.value && last.value)
  }

  // ----- Syntax trees -----

  datatype Expr = Single(t: Term) | OrElse(t: Term, rest: Expr)

  datatype Term = Alone(f: Factor) | AndAlso(f: Factor, rest: Term) | Led(t: Term)

  datatype Factor = Not(f: Factor) | Paren(junk: string, e: Expr) | Name(n: string)

  function PrintExpr(e: Expr): string {
    match e
    case Single(t) => PrintTerm(t)
    case OrElse(t, rest) => PrintTerm(t) + "|" + PrintExpr(rest)
  }

  function PrintTerm(t: Term): string {
    match t
    case Alone(f) => PrintFactor(f)
    case AndAlso(f, rest) => PrintFactor(f) + "&" + PrintTerm(rest)
    case Led(u) => "&" + PrintTerm(u)
  }

  function PrintFactor(f: Factor): string {
    match f
    case Not(g) => "!" + PrintFactor(g)
    case Paren(junk, e) => "(" + (junk + PrintExpr(e)) + ")"
    case Name(n) => n
  }

  predicate Junky(w: string) {
    forall i :: 0 <= i < |w| ==> !BelongsToName(w[i]) && w[i] != '!' && w[i] != '(' && w[i] != ')' && !IsSpace(w[i])
  }

  predicate Proper(n: string) { n != "" && forall i :: 0 <= i < |n| ==> BelongsToName(n[i]) }

  /** Junk is passed over before several terms or several factors. */
  predicate Passed(junk: string, e: Expr) {
    !e.t.Led? && Junky(junk) && (junk == "" || e.OrElse? || e.t.AndAlso?)
  }

  predicate GoodText(junk: string, e: Expr, vals: Vals) { GoodExpr(e, vals) && Passed(junk, e) }

  /** The names are constants or names the valuation knows. */
  predicate GoodExpr(e: Expr, vals: Vals)
  {
    match e
    case Single(t) => GoodTerm(t, vals)
    case OrElse(t, rest) => GoodTerm(t, vals) && GoodExpr(rest, vals)
  }

  predicate GoodTerm(t: Term, vals: Vals)
  {
    match t
    case Alone(f) => GoodFactor(f, vals)
    case AndAlso(f, rest) => GoodFactor(f, vals) && GoodTerm(rest, vals) && !rest.Led?
    case Led(u) => GoodTerm(u, vals) && !u.Alone?
  }

  predicate GoodFactor(f: Factor, vals: Vals)
  {
    match f
    case Not(g) => GoodFactor(g, vals)
    case Paren(junk, e) => GoodExpr(e, vals) && Passed(junk, e)
    case Name(n) => Proper(n) && (n == "0" || n == "1" || n in vals)
  }

  /** The truth value, with & before |. */
  function EvalExpr(e: Expr, vals: Vals): bool
    requires GoodExpr(e, vals)
  {
    match e
    case Single(t) => EvalTerm(t, vals)
    case OrElse(t, rest) => EvalTerm(t, vals) || EvalExpr(rest, vals)
  }

  function EvalTerm(t: Term, vals: Vals): bool
    requires GoodTerm(t, vals)
  {
    match t
    case Alone(f) => EvalFactor(f, vals)
    case AndAlso(f, rest) => EvalFactor(f, vals) && EvalTerm(rest, vals)
    case Led(u) => EvalTerm(u, vals)
  }

  function EvalFactor(f: Factor, vals: Vals): bool
    requires GoodFactor(f, vals)
  {
    match f
    case Not(g) => !EvalFactor(g, vals)
    case Paren(_, e) => EvalExpr(e, vals)
    case Name(n) => if n == "1" then true else if n == "0" then false else vals[n]
  }

  // ----- Scanning what a tree prints -----

  /** The formula holds w at position i. */
  predicate At(formula: string, i: nat, w: string) {
    i + |w| <= |formula| && formula[i..i + |w|] == w
  }

  lemma AtSplit(formula: string, i: nat, u: string, v: string)
    requires At(formula, i, u + v)
    ensures At(formula, i, u) && At(formula, i + |u|, v)
  {
    var w := formula[i..i + |u| + |v|];
    assert w[..|u|] == u && w[|u|..] == v;
    assert formula[i..i + |u|] == w[..|u|];
    assert formula[i + |u|..i + |u| + |v|] == w[|u|..];
  }

  lemma AtChar(formula: string, i: nat, c: char)
    requires At(formula, i, [c])
    ensures i < |formula| && formula[i] == c
  {
    assert formula[i..i + 1][0] == c;
  }

  /** Two parts with an operator between them. */
  lemma AtOperator(formula: string, i: nat, u: string, c: char, v: string)
    requires At(formula, i, u + [c] + v)
    ensures At(formula, i, u) && i + |u| < |formula| && formula[i + |u|] == c && At(formula, i + |u| + 1, v)
    ensures |u + [c] + v| == |u| + 1 + |v|
  {
    AtSplit(formula, i, u + [c], v);
    AtSplit(formula, i, u, [c]);
    AtChar(formula, i + |u|, c);
  }

  // One step of the scan for each kind of character.

  lemma StepInside(formula: string, op: char, i: nat, start: int, parity: int, subs: seq<string>)
    requires i < |formula| && 0 <= start <= i && parity > 0 && formula[i] != '(' && formula[i] != ')'
    ensures Scan(formula, op, i, start, parity, subs) == Scan(formula, op, i + 1, start, parity, subs)
  {
  }

  lemma StepOpen(formula: string, op: char, i: nat, start: int, parity: int, subs: seq<string>)
    requires i < |formula| && -1 <= start <= i && formula[i] == '('
    ensures Scan(formula, op, i, start, parity, subs) ==
      Scan(formula, op, i + 1, if start == -1 then i else start, parity + 1, subs)
  {
  }

  lemma StepClose(formula: string, op: char, i: nat, start: int, parity: int, subs: seq<string>)
    requires i < |formula| && -1 <= start <= i && formula[i] == ')'
    ensures Scan(formula, op, i, start, parity, subs) == Scan(formula, op, i + 1, start, parity - 1, subs)
  {
  }

  lemma StepName(formula: string, op: char, i: nat, start: int, subs: seq<string>)
    requires i < |formula| && 0 <= start <= i && (BelongsToName(formula[i]) || formula[i] == '!')
    ensures Scan(formula, op, i, start, 0, subs) == Scan(formula, op, i + 1, start, 0, subs)
  {
  }

  predicate Starts(c: char) { BelongsToName(c) || c == '!' || c == '(' }

  /** Where the first part starts. */
  lemma StepStart(formula: string, op: char, i: nat)
    requires i < |formula| && Starts(formula[i])
    ensures Scan(formula, op, i, -1, 0, []) == Scan(formula, op, i, i, 0, [])
  {
  }

  lemma StepOther(formula: string, op: char, i: nat, start: int, subs: seq<string>)
    requires i < |formula| && 0 <= start <= i && op != formula[i] && (formula[i] == '&' || formula[i] == '|')
    ensures Scan(formula, op, i, start, 0, subs) == Scan(formula, op, i + 1, start, 0, subs)
  {
  }

  lemma StepSplit(formula: string, op: char, i: nat, start: int, subs: seq<string>)
    requires i < |formula| && 0 <= start <= i && op == formula[i] && (op == '&' || op == '|')
    ensures Scan(formula, op, i, start, 0, subs) == Scan(formula, op, i + 1, i + 1, 0, subs + [formula[start..i]])
  {
  }

  lemma LeadInside(formula: string, op: char, i: nat, start: int, parity: int, subs: seq<string>, w: string)
    requires At(formula, i, "&" + w) && 0 <= start <= i && parity > 0
    ensures At(formula, i + 1, w)
    ensures Scan(formula, op, i, start, parity, subs) == Scan(formula, op, i + 1, start, parity, subs)
  {
    AtSplit(formula, i, "&", w);
    AtChar(formula, i, '&');
    StepInside(formula, op, i, start, parity, subs);
  }

  lemma LeadOver(formula: string, i: nat, start: int, subs: seq<string>, w: string)
    requires At(formula, i, "&" + w) && 0 <= start <= i
    ensures At(formula, i + 1, w)
    ensures Scan(formula, '|', i, start, 0, subs) == Scan(formula, '|', i + 1, start, 0, subs)
  {
    AtSplit(formula, i, "&", w);
    AtChar(formula, i, '&');
    StepOther(formula, '|', i, start, subs);
  }

  /** Inside parentheses nothing happens, and the parity is kept. */
  lemma {:induction false} ScanName(formula: string, op: char, i: nat, start: int, parity: int, subs: seq<string>,
        n: string)
    requires At(formula, i, n) && 0 <= start <= i && (forall k :: 0 <= k < |n| ==> BelongsToName(n[k]))
    ensures Scan(formula, op, i, start, parity, subs) == Scan(formula, op, i + |n|, start, parity, subs)
    decreases |n|
  {
    if n != "" {
      assert n == [n[0]] + n[1..];
      AtSplit(formula, i, [n[0]], n[1..]);
      AtChar(formula, i, n[0]);
      ScanName(formula, op, i + 1, start, parity, subs, n[1..]);
    }
  }

  /** Junk inside parentheses, and before the first part. */
  lemma {:induction false} InsideJunk(formula: string, op: char, i: nat, start: int, parity: int, subs: seq<string>,
        w: string)
    requires At(formula, i, w) && 0 <= start <= i && parity > 0 && Junky(w)
    ensures Scan(formula, op, i, start, parity, subs) == Scan(formula, op, i + |w|, start, parity, subs)
    decreases |w|
  {
    if w != "" {
      assert w == [w[0]] + w[1..];
      AtSplit(formula, i, [w[0]], w[1..]);
      AtChar(formula, i, w[0]);
      StepInside(formula, op, i, start, parity, subs);
      InsideJunk(formula, op, i + 1, start, parity, subs, w[1..]);
    }
  }

  lemma {:induction false} OverJunk(formula: string, op: char, i: nat, w: string)
    requires At(formula, i, w) && Junky(w)
    ensures Scan(formula, op, i, -1, 0, []) == Scan(formula, op, i + |w|, -1, 0, [])
    decreases |w|
  {
    if w != "" {
      assert w == [w[0]] + w[1..];
      AtSplit(formula, i, [w[0]], w[1..]);
      AtChar(formula, i, w[0]);
      OverJunk(formula, op, i + 1, w[1..]);
    }
  }

  lemma {:induction false} InsideExpr(formula: string, op: char, i: nat, start: int, parity: int, subs: seq<string>,
        e: Expr, vals: Vals)
    requires At(formula, i, PrintExpr(e)) && 0 <= start <= i && parity > 0 && GoodExpr(e, vals)
    ensures Scan(formula, op, i, start, parity, subs) == Scan(formula, op, i + |PrintExpr(e)|, start, parity, subs)
    decreases e
  {
    match e
    case Single(t) => InsideTerm(formula, op, i, start, parity, subs, t, vals);
    case OrElse(t, rest) =>
      var u := PrintTerm(t);
      AtOperator(formula, i, u, '|', PrintExpr(rest));
      InsideTerm(formula, op, i, start, parity, subs, t, vals);
      StepInside(formula, op, i + |u|, start, parity, subs);
      InsideExpr(formula, op, i + |u| + 1, start, parity, subs, rest, vals);
  }

  lemma {:induction false} InsideTerm(formula: string, op: char, i: nat, start: int, parity: int, subs: seq<string>,
        t: Term, vals: Vals)
    requires At(formula, i, PrintTerm(t)) && 0 <= start <= i && parity > 0 && GoodTerm(t, vals)
    ensures Scan(formula, op, i, start, parity, subs) == Scan(formula, op, i + |PrintTerm(t)|, start, parity, subs)
    decreases t
  {
    match t
    case Alone(f) => InsideFactor(formula, op, i, start, parity, subs, f, vals);
    case AndAlso(f, rest) =>
      var k, v := i + |PrintFactor(f)|, PrintTerm(rest);
      AtOperator(formula, i, PrintFactor(f), '&', v);
      InsideFactor(formula, op, i, start, parity, subs, f, vals);
      StepInside(formula, op, k, start, parity, subs);
      InsideTerm(formula, op, k + 1, start, parity, subs, rest, vals);
      assert |PrintTerm(t)| == |PrintFactor(f)| + 1 + |v|;
    case Led(u) =>
      LeadInside(formula, op, i, start, parity, subs, PrintTerm(u));
      InsideTerm(formula, op, i + 1, start, parity, subs, u, vals);
      assert |PrintTerm(t)| == 1 + |PrintTerm(u)|;
  }

  lemma {:induction false} InsideFactor(formula: string, op: char, i: nat, start: int, parity: int, subs: seq<string>,
        f: Factor, vals: Vals)
    requires At(formula, i, PrintFactor(f)) && 0 <= start <= i && parity > 0 && GoodFactor(f, vals)
    ensures Scan(formula, op, i, start, parity, subs) == Scan(formula, op, i + |PrintFactor(f)|, start, parity, subs)
    decreases f
  {
    match f
    case Not(g) =>
      AtSplit(formula, i, "!", PrintFactor(g));
      AtChar(formula, i, '!');
      InsideFactor(formula, op, i + 1, start, parity, subs, g, vals);
    case Paren(junk, e) =>
      ParenAt(formula, i, junk, e);
      InsideJunk(formula, op, i + 1, start, parity + 1, subs, junk);
      InsideExpr(formula, op, i + 1 + |junk|, start, parity + 1, subs, e, vals);
    case Name(n) =>
      ScanName(formula, op, i, start, parity, subs, n);
  }

  lemma ParenAt(formula: string, i: nat, junk: string, e: Expr)
    requires At(formula, i, PrintFactor(Paren(junk, e)))
    ensures At(formula, i + 1, junk) && At(formula, i + 1 + |junk|, PrintExpr(e))
    ensures i + 1 + |junk| + |PrintExpr(e)| < |formula|
    ensures formula[i] == '(' && formula[i + 1 + |junk| + |PrintExpr(e)|] == ')'
  {
    var w := junk + PrintExpr(e);
    AtSplit(formula, i, "(" + w, ")");
    AtSplit(formula, i, "(", w);
    AtSplit(formula, i + 1, junk, PrintExpr(e));
    AtChar(formula, i, '(');
    AtChar(formula, i + 1 + |w|, ')');
  }

  /** On the top level nothing happens within a factor. */
  lemma {:induction false} OverFactor(formula: string, op: char, i: nat, start: int, subs: seq<string>, f: Factor,
        vals: Vals)
    requires At(formula, i, PrintFactor(f)) && 0 <= start <= i && GoodFactor(f, vals)
    ensures Scan(formula, op, i, start, 0, subs) == Scan(formula, op, i + |PrintFactor(f)|, start, 0, subs)
    decreases f
  {
    match f
    case Not(g) =>
      AtSplit(formula, i, "!", PrintFactor(g));
      AtChar(formula, i, '!');
      StepName(formula, op, i, start, subs);
      OverFactor(formula, op, i + 1, start, subs, g, vals);
    case Paren(junk, e) =>
      OverParen(formula, op, i, start, subs, junk, e, vals);
    case Name(n) =>
      ScanName(formula, op, i, start, 0, subs, n);
  }

  lemma OverParen(formula: string, op: char, i: nat, start: int, subs: seq<string>, junk: string, e: Expr, vals: Vals)
    requires At(formula, i, PrintFactor(Paren(junk, e))) && 0 <= start <= i && GoodText(junk, e, vals)
    ensures Scan(formula, op, i, start, 0, subs) ==
      Scan(formula, op, i + |PrintFactor(Paren(junk, e))|, start, 0, subs)
  {
    var last := i + 1 + |junk| + |PrintExpr(e)|;
    ParenAt(formula, i, junk, e);
    StepOpen(formula, op, i, start, 0, subs);
    InsideJunk(formula, op, i + 1, start, 1, subs, junk);
    InsideExpr(formula, op, i + 1 + |junk|, start, 1, subs, e, vals);
    StepClose(formula, op, last, start, 1, subs);
  }

  lemma OverAnd(formula: string, i: nat, start: int, subs: seq<string>, f: Factor, v: string, vals: Vals)
    requires At(formula, i, PrintFactor(f) + "&" + v) && 0 <= start <= i && GoodFactor(f, vals)
    ensures At(formula, i + |PrintFactor(f)| + 1, v)
    ensures Scan(formula, '|', i, start, 0, subs) == Scan(formula, '|', i + |PrintFactor(f)| + 1, start, 0, subs)
  {
    AtOperator(formula, i, PrintFactor(f), '&', v);
    OverFactor(formula, '|', i, start, subs, f, vals);
    StepOther(formula, '|', i + |PrintFactor(f)|, start, subs);
  }

  /** A term has no | on its top level. */
  lemma {:induction false} OverTerm(formula: string, i: nat, start: int, subs: seq<string>, t: Term, vals: Vals)
    requires At(formula, i, PrintTerm(t)) && 0 <= start <= i && GoodTerm(t, vals)
    ensures Scan(formula, '|', i, start, 0, subs) == Scan(formula, '|', i + |PrintTerm(t)|, start, 0, subs)
    decreases t
  {
    match t
    case Alone(f) => OverFactor(formula, '|', i, start, subs, f, vals);
    case AndAlso(f, rest) =>
      OverAnd(formula, i, start, subs, f, PrintTerm(rest), vals);
      OverTerm(formula, i + |PrintFactor(f)| + 1, start, subs, rest, vals);
    case Led(u) =>
      LeadOver(formula, i, start, subs, PrintTerm(u));
      OverTerm(formula, i + 1, start, subs, u, vals);
  }

  // ----- The parts of a tree -----

  function Terms(e: Expr): seq<string> {
    match e
    case Single(t) => [PrintTerm(t)]
    case OrElse(t, rest) => [PrintTerm(t)] + Terms(rest)
  }

  function Factors(t: Term): seq<string> {
    match t
    case Alone(f) => [PrintFactor(f)]
    case AndAlso(f, rest) => [PrintFactor(f)] + Factors(rest)
    case Led(u) => Factors(u)
  }

  /** Splitting a printed expression at | gives its terms. */
  lemma {:induction false} SplitExpr(formula: string, i: nat, subs: seq<string>, e: Expr, vals: Vals)
    requires At(formula, i, PrintExpr(e)) && i + |PrintExpr(e)| == |formula| && GoodExpr(e, vals)
    ensures Scan(formula, '|', i, i, 0, subs) == Ok(subs + Terms(e))
    decreases e
  {
    match e
    case Single(t) =>
      OverTerm(formula, i, i, subs, t, vals);
      assert formula[i..] == formula[i..i + |PrintTerm(t)|];
    case OrElse(t, rest) =>
      var u := PrintTerm(t);
      AtOperator(formula, i, u, '|', PrintExpr(rest));
      OverTerm(formula, i, i, subs, t, vals);
      StepSplit(formula, '|', i + |u|, i, subs);
      SplitExpr(formula, i + |u| + 1, subs + [u], rest, vals);
      assert subs + [u] + Terms(rest) == subs + Terms(e);
  }

  /** Splitting a printed term at & gives its factors. */
  lemma {:induction false} SplitTerm(formula: string, i: nat, subs: seq<string>, t: Term, vals: Vals)
    requires At(formula, i, PrintTerm(t)) && i + |PrintTerm(t)| == |formula| && GoodTerm(t, vals) && !t.Led?
    ensures Scan(formula, '&', i, i, 0, subs) == Ok(subs + Factors(t))
    decreases t
  {
    match t
    case Alone(f) =>
      OverFactor(formula, '&', i, i, subs, f, vals);
      assert formula[i..] == formula[i..i + |PrintFactor(f)|];
    case AndAlso(f, rest) =>
      var u := PrintFactor(f);
      AtOperator(formula, i, u, '&', PrintTerm(rest));
      OverFactor(formula, '&', i, i, subs, f, vals);
      StepSplit(formula, '&', i + |u|, i, subs);
      SplitTerm(formula, i + |u| + 1, subs + [u], rest, vals);
      assert subs + [u] + Factors(rest) == subs + Factors(t);
  }

  lemma WholeAt(junk: string, w: string)
    ensures At(junk + w, 0, junk) && At(junk + w, |junk|, w)
  {
    assert (junk + w)[0..|junk + w|] == junk + w;
    AtSplit(junk + w, 0, junk, w);
  }

  /** A factor starts a part. */
  lemma FactorStarts(f: Factor, vals: Vals)
    requires GoodFactor(f, vals)
    ensures PrintFactor(f) != "" && Starts(PrintFactor(f)[0])
  {
  }

  lemma TermStarts(t: Term, vals: Vals)
    requires GoodTerm(t, vals) && !t.Led?
    ensures PrintTerm(t) != "" && Starts(PrintTerm(t)[0])
  {
    FactorStarts(t.f, vals);
  }

  lemma ParseFrom(junk: string, w: string, op: char)
    requires Junky(junk) && w != "" && Starts(w[0])
    ensures SingleParse(junk + w, op) == Scan(junk + w, op, |junk|, |junk|, 0, []) && At(junk + w, |junk|, w)
  {
    WholeAt(junk, w);
    OverJunk(junk + w, op, 0, junk);
    assert (junk + w)[|junk|] == w[0];
    StepStart(junk + w, op, |junk|);
  }

  lemma ParseExpr(junk: string, e: Expr, vals: Vals)
    requires GoodExpr(e, vals) && Junky(junk) && !e.t.Led?
    ensures SingleParse(junk + PrintExpr(e), '|') == Ok(Terms(e))
  {
    TermStarts(e.t, vals);
    ParseFrom(junk, PrintExpr(e), '|');
    SplitExpr(junk + PrintExpr(e), |junk|, [], e, vals);
    assert [] + Terms(e) == Terms(e);
  }

  lemma ParseTerm(junk: string, t: Term, vals: Vals)
    requires GoodTerm(t, vals) && Junky(junk) && !t.Led?
    ensures SingleParse(junk + PrintTerm(t), '|') == Ok([PrintTerm(t)])
    ensures SingleParse(junk + PrintTerm(t), '&') == Ok(Factors(t))
  {
    ParseExpr(junk, Single(t), vals);
    TermStarts(t, vals);
    ParseFrom(junk, PrintTerm(t), '&');
    SplitTerm(junk + PrintTerm(t), |junk|, [], t, vals);
    assert [] + Factors(t) == Factors(t);
  }

  // ----- Printed trees hold no white space and are not empty -----

  predicate Solid(w: string) {
    w != "" && forall i :: 0 <= i < |w| ==> !IsSpace(w[i])
  }

  lemma {:induction false} SolidExpr(e: Expr, vals: Vals)
    requires GoodExpr(e, vals)
    ensures Solid(PrintExpr(e))
    decreases e
  {
    match e
    case Single(t) => SolidTerm(t, vals);
    case OrElse(t, rest) => SolidTerm(t, vals); SolidExpr(rest, vals);
  }

  lemma {:induction false} SolidTerm(t: Term, vals: Vals)
    requires GoodTerm(t, vals)
    ensures Solid(PrintTerm(t))
    decreases t
  {
    match t
    case Alone(f) => SolidFactor(f, vals);
    case AndAlso(f, rest) => SolidFactor(f, vals); SolidTerm(rest, vals);
    case Led(u) => SolidTerm(u, vals);
  }

  lemma {:induction false} SolidFactor(f: Factor, vals: Vals)
    requires GoodFactor(f, vals)
    ensures Solid(PrintFactor(f))
    decreases f
  {
    match f
    case Not(g) => SolidFactor(g, vals);
    case Paren(_, e) => SolidExpr(e, vals);
    case Name(n) =>
  }

  // ----- Evaluation of the parts -----

  /** Evaluating one more part at the front. */
  lemma {:induction false} ResolveFront(source: string, op: char, first: string, parts: seq<string>, x: bool, y: bool,
        vals: Vals)
    requires |first| < |source| && (forall k :: 0 <= k < |parts| ==> |parts[k]| < |source|)
    requires Resolve(first, vals) == Ok(x) && ResolveAll(source, op, parts, vals) == Ok(y) && (op == '|' || op == '&')
    ensures ResolveAll(source, op, [first] + parts, vals) == Ok(if op == '|' then x || y else x && y)
    decreases |parts|
  {
    var all := [first] + parts;
    if parts == [] {
      assert all == [first];
      assert all[..0] == [];
    } else {
      var n := |parts| - 1;
      assert all[..n + 1] == [first] + parts[..n];
      ResolveFront(source, op, first, parts[..n], x, ResolveAll(source, op, parts[..n], vals).value, vals);
    }
  }

  lemma ResolveLone(source: string, op: char, part: string, x: bool, vals: Vals)
    requires |part| < |source| && Resolve(part, vals) == Ok(x) && (op == '|' || op == '&')
    ensures ResolveAll(source, op, [part], vals) == Ok(x)
  {
    ResolveFront(source, op, part, [], x, op == '&', vals);
    assert [part] + [] == [part];
  }

  ghost predicate Resolves(w: string, vals: Vals, b: bool) {
    Resolve(w, vals) == Ok(b)
  }

  lemma {:induction false} AllTerms(source: string, e: Expr, vals: Vals)
    requires GoodExpr(e, vals) && |PrintExpr(e)| < |source|
    ensures forall k :: 0 <= k < |Terms(e)| ==> |Terms(e)[k]| < |source|
    ensures ResolveAll(source, '|', Terms(e), vals) == Ok(EvalExpr(e, vals))
    decreases e, 0
  {
    ResolvesTerm("", e.t, vals);
    assert "" + PrintTerm(e.t) == PrintTerm(e.t);
    match e
    case Single(t) =>
      ResolveLone(source, '|', PrintTerm(t), EvalTerm(t, vals), vals);
    case OrElse(t, rest) =>
      AllTerms(source, rest, vals);
      ResolveFront(source, '|', PrintTerm(t), Terms(rest), EvalTerm(t, vals), EvalExpr(rest, vals), vals);
  }

  lemma {:induction false} AllFactors(source: string, t: Term, vals: Vals)
    requires GoodTerm(t, vals) && |PrintTerm(t)| < |source| && !t.Led?
    ensures forall k :: 0 <= k < |Factors(t)| ==> |Factors(t)[k]| < |source|
    ensures ResolveAll(source, '&', Factors(t), vals) == Ok(EvalTerm(t, vals))
    decreases t, 0
  {
    ResolvesFactor(t.f, vals);
    match t
    case Alone(f) =>
      ResolveLone(source, '&', PrintFactor(f), EvalFactor(f, vals), vals);
    case AndAlso(f, rest) =>
      AllFactors(source, rest, vals);
      ResolveFront(source, '&', PrintFactor(f), Factors(rest), EvalFactor(f, vals), EvalTerm(rest, vals), vals);
  }

  lemma SolidText(junk: string, w: string)
    requires Junky(junk) && Solid(w)
    ensures Solid(junk + w) && RemoveWhitespaces(junk + w) == junk + w
  {
    NothingToRemove(junk + w);
  }

  lemma {:induction false} ResolvesText(junk: string, e: Expr, vals: Vals)
    requires GoodText(junk, e, vals)
    ensures Resolves(junk + PrintExpr(e), vals, EvalExpr(e, vals))
    decreases e, 1
  {
    match e
    case Single(t) => ResolvesTerm(junk, t, vals);
    case OrElse(t, rest) =>
      var w := junk + PrintExpr(e);
      SolidExpr(e, vals);
      SolidText(junk, PrintExpr(e));
      ParseExpr(junk, e, vals);
      ResolvesTerm("", t, vals);
      assert "" + PrintTerm(t) == PrintTerm(t);
      AllTerms(w, rest, vals);
      ResolveFront(w, '|', PrintTerm(t), Terms(rest), EvalTerm(t, vals), EvalExpr(rest, vals), vals);
  }

  lemma {:induction false} ResolvesTerm(junk: string, t: Term, vals: Vals)
    requires GoodTerm(t, vals) && Junky(junk) && (junk == "" || !t.Alone?)
    ensures Resolves(junk + PrintTerm(t), vals, EvalTerm(t, vals))
    decreases t, 1
  {
    match t
    case Alone(f) =>
      ResolvesFactor(f, vals);
      assert "" + PrintFactor(f) == PrintFactor(f);
    case AndAlso(f, rest) =>
      var w := junk + PrintTerm(t);
      SolidTerm(t, vals);
      SolidText(junk, PrintTerm(t));
      ParseTerm(junk, t, vals);
      ResolvesFactor(f, vals);
      AllFactors(w, rest, vals);
      ResolveFront(w, '&', PrintFactor(f), Factors(rest), EvalFactor(f, vals), EvalTerm(rest, vals), vals);
    case Led(u) =>
      ResolvesTerm(junk + "&", u, vals);
      assert junk + PrintTerm(t) == junk + "&" + PrintTerm(u);
  }

  lemma {:induction false} ResolvesFactor(f: Factor, vals: Vals)
    requires GoodFactor(f, vals)
    ensures Resolves(PrintFactor(f), vals, EvalFactor(f, vals))
    decreases f, 1
  {
    var w := PrintFactor(f);
    AtomResolves(f, vals);
    match f
    case Not(g) =>
      ResolvesFactor(g, vals);
      assert w[1..] == PrintFactor(g);
      OneNot(w, vals, EvalFactor(g, vals));
    case Paren(junk, e) =>
      ResolvesText(junk, e, vals);
      assert w[1..|w| - 1] == junk + PrintExpr(e);
      OneParen(w, vals, EvalExpr(e, vals));
    case Name(n) =>
      OneName(n, vals);
  }

  lemma OneNot(w: string, vals: Vals, b: bool)
    requires w != "" && w[0] == '!' && Resolve(w[1..], vals) == Ok(b)
    ensures ResolveOne(w, vals) == Ok(!b)
  {
  }

  lemma OneParen(w: string, vals: Vals, b: bool)
    requires |w| >= 2 && w[0] == '(' && Resolve(w[1..|w| - 1], vals) == Ok(b)
    ensures ResolveOne(w, vals) == Ok(b)
  {
  }

  lemma OneName(n: string, vals: Vals)
    requires Proper(n) && (n == "0" || n == "1" || n in vals)
    ensures ResolveOne(n, vals) == Ok(if n == "1" then true else if n == "0" then false else vals[n])
  {
    assert BelongsToName(n[0]);
  }

  /** A factor is not split. */
  lemma AtomResolves(f: Factor, vals: Vals)
    requires GoodFactor(f, vals)
    ensures PrintFactor(f) != "" && Resolve(PrintFactor(f), vals) == ResolveOne(PrintFactor(f), vals)
  {
    var w := PrintFactor(f);
    SolidFactor(f, vals);
    NothingToRemove(w);
    ParseTerm("", Alone(f), vals);
    assert "" + w == w;
  }

  /** Any text of a formula, with white space anywhere, evaluates to its truth
      value. */
  lemma ResolveCorrect(source: string, junk: string, e: Expr, vals: Vals)
    requires GoodText(junk, e, vals) && RemoveWhitespaces(source) == junk + PrintExpr(e)
    ensures Resolve(source, vals) == Ok(EvalExpr(e, vals))
  {
    ResolvesText(junk, e, vals);
    SolidExpr(e, vals);
    SolidText(junk, PrintExpr(e));
  }

  // ----- The loops -----

  method RemoveWhitespacesLoop(source: string) returns (result: string)
    ensures result == RemoveWhitespaces(source)
  {
    result := "";
    for i := 0 to |source|
      invariant result == RemoveWhitespaces(source[..i])
    {
      assert source[..i + 1][..i] == source[..i];
      if !IsSpace(source[i]) {
        result := result + [source[i]];
      }
    }
    assert source[..|source|] == source;
  }

  /** The parity is tested after the whole formula was read. */
  method SingleParseLoop(formula: string, op: char) returns (r: Result<seq<string>>)
    ensures r == SingleParse(formula, op)
  {
    var start := -1;
    var parity := 0;
    var subs: seq<string> := [];
    var i := 0;
    while i < |formula|
      invariant 0 <= i <= |formula| && -1 <= start <= i
      invariant Scan(formula, op, i, start, parity, subs) == SingleParse(formula, op)
    {
      var c := formula[i];
      if c == ')' {
        parity := parity - 1;
      } else if c == '(' {
        parity := parity + 1;
        if start == -1 { start := i; }
      } else if parity == 0 {
        if start == -1 {
          if BelongsToName(c) || c == '!' { start := i; }
        } else if !(BelongsToName(c) || c == '!') {
          if op == c {
            subs := subs + [formula[start..i]];
            start := i + 1;
          } else if c != '&' && c != '|' {
            return Err(UnknownOperator);
          }
        }
      }
      i := i + 1;
    }
    if start != -1 {
      subs := subs + [formula[start..]];
    }
    if parity != 0 {
      return Err(ParenthesisParity);
    }
    return Ok(subs);
  }

  method Evaluate(source: string, vals: Vals) returns (r: Result<bool>)
    ensures r == Resolve(source, vals)
    decreases |source|, 1
  {
    var formula := RemoveWhitespacesLoop(source);
    r := EvaluateRec(formula, vals);
  }

  method EvaluateRec(source: string, vals: Vals) returns (r: Result<bool>)
    ensures r == ResolveRec(source, vals)
    decreases |source|, 0
  {
    if source == "" {
      return Err(EmptySubExpression);
    }
    var op := '|';
    var parsed := SingleParseLoop(source, op);
    if parsed.Err? { return Err(parsed.error); }
    ScanShorter(source, '|', 0, -1, 0, []);
    if |parsed.value| == 1 {
      op := '&';
      parsed := SingleParseLoop(source, op);
      if parsed.Err? { return Err(parsed.error); }
      ScanShorter(source, '&', 0, -1, 0, []);
    }
    if |parsed.value| == 0 {
      r := Err(InvalidName);
    } else if |parsed.value| == 1 {
      r := EvaluateOne(source, vals);
    } else {
      r := EvaluateAll(source, op, parsed.value, vals);
    }
  }

  method EvaluateOne(source: string, vals: Vals) returns (r: Result<bool>)
    requires source != ""
    ensures r == ResolveOne(source, vals)
    decreases |source|, -1
  {
    if source[0] == '!' {
      r := Evaluate(source[1..], vals);
      if r.Ok? { r := Ok(!r.value); }
    } else if source[0] == '(' {
      r := Evaluate(if |source| >= 2 then source[1..|source| - 1] else "", vals);
    } else if source == "1" {
      r := Ok(true);
    } else if source == "0" {
      r := Ok(false);
    } else if source !in vals {
      r := Err(VariableNotFound);
    } else {
      r := Ok(vals[source]);
    }
  }

  /** The accumulating loop, without a short cut. */
  method EvaluateAll(source: string, op: char, parts: seq<string>, vals: Vals) returns (r: Result<bool>)
    requires forall k :: 0 <= k < |parts| ==> |parts[k]| < |source|
    ensures r == ResolveAll(source, op, parts, vals)
    decreases |source|, -1
  {
    var result := op == '&';
    for k := 0 to |parts|
      invariant ResolveAll(source, op, parts[..k], vals) == Ok(result)
    {
      assert parts[..k + 1][..k] == parts[..k];
      var part := Evaluate(parts[k], vals);
      if part.Err? {
        ResolveStops(source, op, parts, vals, k + 1);
        return part;
      }
      result := if op == '|' then result || part.value else result && part.value;
    }
    assert parts[..|parts|] == parts;
    r := Ok(result);
  }

  /** An error in the first parts is the error of all parts. */
  lemma {:induction false} ResolveStops(source: string, op: char, parts: seq<string>, vals: Vals, k: nat)
    requires k <= |parts| && (forall j :: 0 <= j < |parts| ==> |parts[j]| < |source|)
    requires ResolveAll(source, op, parts[..k], vals).Err?
    ensures ResolveAll(source, op, parts, vals) == ResolveAll(source, op, parts[..k], vals)
    decreases |parts|
  {
    if k == |parts| {
      assert parts[..k] == parts;
    } else {
      assert parts[..|parts| - 1][..k] == parts[..k];
      ResolveStops(source, op, parts[..|parts| - 1], vals, k);
    }
  }
}
