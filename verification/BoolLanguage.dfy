/**
  Which texts the evaluator of src/LibBoolEE.cpp accepts: exactly those of the
  grammar given with BoolExpr, white space aside. The names of a valuation are
  made of name characters, as those of qualifiers are.
*/
module BoolLanguage {
  import opened Ascii
  import opened BoolExpr

  ghost predicate ProperNames(vals: Vals) { forall n :: n in vals ==> Proper(n) }

  predicate Spaceless(w: string) { forall i :: 0 <= i < |w| ==> !IsSpace(w[i]) }

  // ----- Depth -----

  function Turn(c: char): int { if c == '(' then 1 else if c == ')' then -1 else 0 }

  /** Opening less closing parentheses. */
  function Depth(w: string): int { if w == "" then 0 else Depth(w[..|w| - 1]) + Turn(w[|w| - 1]) }

  lemma DepthChar(w: string, c: char)
    ensures Depth(w + [c]) == Depth(w) + Turn(c)
  {
    assert (w + [c])[..|w|] == w;
  }

  lemma {:induction false} DepthJoin(u: string, v: string)
    ensures Depth(u + v) == Depth(u) + Depth(v)
    decreases |v|
  {
    if v == "" {
      assert u + v == u;
    } else {
      DepthJoin(u, v[..|v| - 1]);
      assert (u + v)[..|u + v| - 1] == u + v[..|v| - 1];
    }
  }

  lemma {:induction false} DepthFlat(w: string)
    requires forall i :: 0 <= i < |w| ==> Turn(w[i]) == 0
    ensures Depth(w) == 0
  {
    if w != "" { DepthFlat(w[..|w| - 1]); }
  }

  lemma {:induction false} DepthExpr(e: Expr, vals: Vals)
    requires GoodExpr(e, vals)
    ensures Depth(PrintExpr(e)) == 0
    decreases e
  {
    match e
    case Single(t) => DepthTerm(t, vals);
    case OrElse(t, rest) =>
      DepthTerm(t, vals);
      DepthExpr(rest, vals);
      DepthChar(PrintTerm(t), '|');
      DepthJoin(PrintTerm(t) + "|", PrintExpr(rest));
  }

  lemma {:induction false} DepthTerm(t: Term, vals: Vals)
    requires GoodTerm(t, vals)
    ensures Depth(PrintTerm(t)) == 0
    decreases t
  {
    match t
    case Alone(f) => DepthFactor(f, vals);
    case AndAlso(f, rest) =>
      DepthFactor(f, vals);
      DepthTerm(rest, vals);
      DepthChar(PrintFactor(f), '&');
      DepthJoin(PrintFactor(f) + "&", PrintTerm(rest));
    case Led(u) =>
      DepthTerm(u, vals);
      DepthFlat("&");
      DepthJoin("&", PrintTerm(u));
  }

  lemma {:induction false} DepthFactor(f: Factor, vals: Vals)
    requires GoodFactor(f, vals)
    ensures Depth(PrintFactor(f)) == 0
    decreases f
  {
    match f
    case Not(g) =>
      DepthFactor(g, vals);
      DepthFlat("!");
      DepthJoin("!", PrintFactor(g));
    case Paren(junk, e) =>
      DepthExpr(e, vals);
      DepthText(junk, e, vals);
      var w := junk + PrintExpr(e);
      DepthChar("", '(');
      assert "" + "(" == "(";
      DepthJoin("(", w);
      DepthChar("(" + w, ')');
    case Name(n) => DepthFlat(n);
  }

  lemma DepthText(junk: string, e: Expr, vals: Vals)
    requires Junky(junk) && Depth(PrintExpr(e)) == 0
    ensures Depth(junk) == 0 && Depth(junk + PrintExpr(e)) == 0
  {
    DepthFlat(junk);
    DepthJoin(junk, PrintExpr(e));
  }

  // ----- Text without an operator on the top level -----

  predicate Calm(c: char, op: char) {
    BelongsToName(c) || c == '!' || c == '(' || c == ')' || ((c == '&' || c == '|') && c != op)
  }

  ghost predicate Quiet(w: string, op: char) {
    forall i :: 0 <= i < |w| && Depth(w[..i]) == 0 ==> Calm(w[i], op)
  }

  lemma QuietChar(w: string, c: char, op: char)
    requires Quiet(w, op) && (Depth(w) == 0 ==> Calm(c, op))
    ensures Quiet(w + [c], op)
  {
    forall i | 0 <= i < |w + [c]| && Depth((w + [c])[..i]) == 0 ensures Calm((w + [c])[i], op) {
      if i < |w| { assert (w + [c])[..i] == w[..i]; } else { assert (w + [c])[..i] == w; }
    }
  }

  lemma QuietSplit(u: string, v: string, op: char)
    requires Quiet(u + v, op)
    ensures Quiet(u, op) && (Depth(u) == 0 ==> Quiet(v, op))
  {
    forall i | 0 <= i < |u| && Depth(u[..i]) == 0 ensures Calm(u[i], op) {
      assert (u + v)[..i] == u[..i] && (u + v)[i] == u[i];
    }
    if Depth(u) == 0 {
      forall i | 0 <= i < |v| && Depth(v[..i]) == 0 ensures Calm(v[i], op) {
        assert (u + v)[..|u| + i] == u + v[..i] && (u + v)[|u| + i] == v[i];
        DepthJoin(u, v[..i]);
      }
    }
  }

  lemma QuietAt(u: string, c: char, v: string, op: char)
    requires Quiet(u + [c] + v, op) && Depth(u) == 0
    ensures Calm(c, op)
  {
    var w := u + [c] + v;
    assert w[..|u|] == u && w[|u|] == c;
  }

  // ----- What a scan that succeeds says about the text -----

  function Join(parts: seq<string>, op: char): string
    requires parts != []
  {
    if |parts| == 1 then parts[0] else parts[0] + [op] + Join(parts[1..], op)
  }

  ghost predicate Parted(parts: seq<string>, op: char) {
    forall k :: 0 <= k < |parts| ==> Quiet(parts[k], op) && Depth(parts[k]) == 0
  }

  lemma ScanOnce(formula: string, op: char, i: nat, start: nat, parity: int, subs: seq<string>)
    requires start <= i < |formula| && (op == '&' || op == '|')
    ensures parity == 0 && formula[i] == op ==>
      Scan(formula, op, i, start, parity, subs) == Scan(formula, op, i + 1, i + 1, 0, subs + [formula[start..i]])
    ensures !(parity == 0 && formula[i] == op) && Scan(formula, op, i, start, parity, subs).Ok? ==>
      && (parity == 0 ==> Calm(formula[i], op))
      && Scan(formula, op, i, start, parity, subs) == Scan(formula, op, i + 1, start, parity + Turn(formula[i]), subs)
  {
  }

  /** Cutting a text at the operators of the top level; `seg` is the beginning of
      its first part, `parity` the depth after it. */
  function Cut(seg: string, parity: int, rest: string, op: char): (parts: seq<string>)
    ensures parts != []
    decreases |rest|
  {
    if rest == "" then [seg]
    else if parity == 0 && rest[0] == op then [seg] + Cut("", 0, rest[1..], op)
    else Cut(seg + [rest[0]], parity + Turn(rest[0]), rest[1..], op)
  }

  /** There is nothing else on the top level, and the parts are balanced. */
  ghost predicate Clean(parity: int, rest: string, op: char)
    decreases |rest|
  {
    if rest == "" then parity == 0
    else if parity == 0 && rest[0] == op then Clean(0, rest[1..], op)
    else (parity == 0 ==> Calm(rest[0], op)) && Clean(parity + Turn(rest[0]), rest[1..], op)
  }

  lemma {:induction false} ScanCuts(formula: string, op: char, i: nat, start: nat, parity: int, subs: seq<string>,
        seg: string, rest: string)
    requires start <= i <= |formula| && (op == '&' || op == '|') && seg == formula[start..i] && rest == formula[i..]
    requires Scan(formula, op, i, start, parity, subs).Ok?
    ensures Scan(formula, op, i, start, parity, subs).value == subs + Cut(seg, parity, rest, op)
    decreases |formula| - i
  {
    if i == |formula| {
      assert seg == formula[start..];
    } else {
      var c, more := formula[i], formula[i + 1..];
      assert rest[0] == c && rest[1..] == more;
      ScanOnce(formula, op, i, start, parity, subs);
      if parity == 0 && c == op {
        ScanCuts(formula, op, i + 1, i + 1, 0, subs + [seg], "", more);
        Regroup(subs, seg, Cut("", 0, more, op));
      } else {
        assert formula[start..i + 1] == seg + [c];
        ScanCuts(formula, op, i + 1, start, parity + Turn(c), subs, seg + [c], more);
      }
    }
  }

  lemma Regroup(subs: seq<string>, seg: string, more: seq<string>)
    ensures subs + [seg] + more == subs + ([seg] + more)
  {
  }

  lemma {:induction false} ScanClean(formula: string, op: char, i: nat, start: nat, parity: int, subs: seq<string>,
        rest: string)
    requires start <= i <= |formula| && (op == '&' || op == '|') && rest == formula[i..]
    requires Scan(formula, op, i, start, parity, subs).Ok?
    ensures Clean(parity, rest, op)
    decreases |formula| - i
  {
    if i < |formula| {
      var c := formula[i];
      assert rest[0] == c && rest[1..] == formula[i + 1..];
      ScanOnce(formula, op, i, start, parity, subs);
      if parity == 0 && c == op {
        ScanClean(formula, op, i + 1, i + 1, 0, subs + [formula[start..i]], rest[1..]);
      } else {
        ScanClean(formula, op, i + 1, start, parity + Turn(c), subs, rest[1..]);
      }
    }
  }

  lemma {:induction false} CutJoins(seg: string, parity: int, rest: string, op: char)
    ensures Join(Cut(seg, parity, rest, op), op) == seg + rest
    decreases |rest|
  {
    if rest != "" {
      assert rest == [rest[0]] + rest[1..];
      if parity == 0 && rest[0] == op {
        var more := Cut("", 0, rest[1..], op);
        CutJoins("", 0, rest[1..], op);
        assert ([seg] + more)[1..] == more;
        assert seg + [op] + ("" + rest[1..]) == seg + rest;
      } else {
        CutJoins(seg + [rest[0]], parity + Turn(rest[0]), rest[1..], op);
        assert seg + [rest[0]] + rest[1..] == seg + rest;
      }
    }
  }

  lemma PartedMore(seg: string, more: seq<string>, op: char)
    requires Quiet(seg, op) && Depth(seg) == 0 && Parted(more, op)
    ensures Parted([seg] + more, op)
  {
    var all := [seg] + more;
    forall k | 0 <= k < |all| ensures Quiet(all[k], op) && Depth(all[k]) == 0 {
      if k > 0 { assert all[k] == more[k - 1]; }
    }
  }

  lemma {:induction false} CutQuiet(seg: string, parity: int, rest: string, op: char)
    requires Quiet(seg, op) && parity == Depth(seg) && Clean(parity, rest, op)
    ensures Parted(Cut(seg, parity, rest, op), op)
    decreases |rest|
  {
    if rest != "" {
      if parity == 0 && rest[0] == op {
        var more := Cut("", 0, rest[1..], op);
        CutQuiet("", 0, rest[1..], op);
        PartedMore(seg, more, op);
      } else {
        QuietChar(seg, rest[0], op);
        DepthChar(seg, rest[0]);
        CutQuiet(seg + [rest[0]], parity + Turn(rest[0]), rest[1..], op);
      }
    }
  }

  lemma {:induction false} ScanDepth(formula: string, op: char, i: nat, start: int, subs: seq<string>)
    requires i <= |formula| && -1 <= start <= i && Scan(formula, op, i, start, Depth(formula[..i]), subs).Ok?
    ensures Depth(formula) == 0
    decreases |formula| - i
  {
    if i == |formula| {
      assert formula[..i] == formula;
    } else {
      var c := formula[i];
      assert formula[..i + 1] == formula[..i] + [c];
      DepthChar(formula[..i], c);
      if c == ')' {
        ScanDepth(formula, op, i + 1, start, subs);
      } else if c == '(' {
        ScanDepth(formula, op, i + 1, if start == -1 then i else start, subs);
      } else if Depth(formula[..i]) != 0 {
        ScanDepth(formula, op, i + 1, start, subs);
      } else if start == -1 {
        ScanDepth(formula, op, i + 1, if BelongsToName(c) || c == '!' then i else -1, subs);
      } else if BelongsToName(c) || c == '!' || c != op {
        ScanDepth(formula, op, i + 1, start, subs);
      } else {
        ScanDepth(formula, op, i + 1, i + 1, subs + [formula[start..i]]);
      }
    }
  }

  lemma {:induction false} ScanKeeps(formula: string, op: char, i: nat, start: nat, parity: int, subs: seq<string>)
    requires start <= i <= |formula| && (op == '&' || op == '|') && Scan(formula, op, i, start, parity, subs).Ok?
    ensures subs <= Scan(formula, op, i, start, parity, subs).value
    decreases |formula| - i
  {
    if i < |formula| {
      ScanOnce(formula, op, i, start, parity, subs);
      if parity == 0 && formula[i] == op {
        ScanKeeps(formula, op, i + 1, i + 1, 0, subs + [formula[start..i]]);
      } else {
        ScanKeeps(formula, op, i + 1, start, parity + Turn(formula[i]), subs);
      }
    }
  }

  // ----- A closing parenthesis before the first part -----

  /** A part that starts below depth 0 is not balanced. */
  lemma {:induction false} StrayPart(formula: string, op: char, i: nat, start: nat, seg: string, parity: int, m: int)
    requires start <= i <= |formula| && (op == '&' || op == '|') && seg == formula[start..i] && m > 0
    requires parity == Depth(seg) - m && Scan(formula, op, i, start, parity, []).Ok?
    ensures var parts := Scan(formula, op, i, start, parity, []).value;
      |parts| > 1 ==> Depth(parts[0]) == m
    decreases |formula| - i
  {
    if i < |formula| {
      var c := formula[i];
      ScanOnce(formula, op, i, start, parity, []);
      if parity == 0 && c == op {
        ScanKeeps(formula, op, i + 1, i + 1, 0, [] + [seg]);
      } else {
        DepthChar(seg, c);
        StrayPart(formula, op, i + 1, start, seg + [c], parity + Turn(c), m);
      }
    }
  }

  lemma {:induction false} StrayScan(formula: string, op: char, i: nat, parity: int)
    requires i <= |formula| && (op == '&' || op == '|') && parity < 0 && Scan(formula, op, i, -1, parity, []).Ok?
    ensures var parts := Scan(formula, op, i, -1, parity, []).value;
      |parts| > 1 ==> Depth(parts[0]) != 0
    decreases |formula| - i
  {
    if i < |formula| {
      if formula[i] == '(' {
        DepthChar("", '(');
        StrayPart(formula, op, i + 1, i, "" + ['('], parity + 1, -parity);
      } else {
        StrayScan(formula, op, i + 1, parity + Turn(formula[i]));
      }
    }
  }

  // ----- From texts back to trees -----

  /** Ampersands before a term. */
  function LedBy(w: string, t: Term): Term { if w == "" then t else Led(LedBy(w[1..], t)) }

  lemma {:induction false} LedByPrints(w: string, t: Term, vals: Vals)
    requires (forall i :: 0 <= i < |w| ==> w[i] == '&') && GoodTerm(t, vals) && !t.Led? && (w == "" || t.AndAlso?)
    ensures GoodTerm(LedBy(w, t), vals) && PrintTerm(LedBy(w, t)) == w + PrintTerm(t)
    ensures !LedBy(w, t).Alone? || w == ""
    ensures LedBy(w, t).Led? <==> w != ""
  {
    if w != "" {
      LedByPrints(w[1..], t, vals);
      assert w == "&" + w[1..];
    }
  }

  /** A text without | on the top level is a term. */
  lemma AsTerm(junk: string, e: Expr, vals: Vals) returns (t: Term)
    requires GoodText(junk, e, vals) && Quiet(junk + PrintExpr(e), '|')
    ensures e.Single? && GoodTerm(t, vals) && PrintTerm(t) == junk + PrintExpr(e)
    ensures (t.Led? <==> junk != "") && (junk == "" ==> t == e.t)
  {
    DepthFlat(junk);
    QuietSplit(junk, PrintExpr(e), '|');
    if e.OrElse? {
      DepthTerm(e.t, vals);
      QuietAt(PrintTerm(e.t), '|', PrintExpr(e.rest), '|');
      assert false;
    }
    AllAmps(junk);
    LedByPrints(junk, e.t, vals);
    t := LedBy(junk, e.t);
  }

  lemma AllAmps(junk: string)
    requires Junky(junk) && Quiet(junk, '|')
    ensures forall i :: 0 <= i < |junk| ==> junk[i] == '&'
  {
    forall i | 0 <= i < |junk| ensures junk[i] == '&' {
      DepthFlat(junk[..i]);
    }
  }

  lemma AmpNotQuiet(u: string, v: string)
    requires Depth(u) == 0
    ensures !Quiet(u + "&" + v, '&')
  {
    var w := u + "&" + v;
    assert w[..|u|] == u && w[|u|] == '&';
  }

  lemma LedNotQuiet(v: string)
    ensures !Quiet("&" + v, '&')
  {
    var w := "&" + v;
    assert w[..0] == "" && w[0] == '&';
  }

  lemma AndNotQuiet(t: Term, f: Factor, rest: Term, vals: Vals)
    requires t == AndAlso(f, rest) && GoodFactor(f, vals)
    ensures !Quiet(PrintTerm(t), '&')
  {
    DepthFactor(f, vals);
    AmpNotQuiet(PrintFactor(f), PrintTerm(rest));
  }

  /** Without & either, it is a factor. */
  lemma AsFactor(junk: string, e: Expr, vals: Vals) returns (f: Factor)
    requires GoodText(junk, e, vals) && Quiet(junk + PrintExpr(e), '|') && Quiet(junk + PrintExpr(e), '&')
    ensures GoodFactor(f, vals) && PrintFactor(f) == junk + PrintExpr(e)
  {
    var t := AsTerm(junk, e, vals);
    match t
    case Alone(g) => f := g;
    case AndAlso(g, rest) => AndNotQuiet(t, g, rest, vals); assert false;
    case Led(u) => LedNotQuiet(PrintTerm(u)); assert false;
  }

  /** What is known of a part before it is read. */
  ghost predicate Readable(part: string, vals: Vals, op: char) {
    Spaceless(part) && Resolve(part, vals).Ok? && Quiet(part, '|') && Quiet(part, op)
  }

  lemma {:induction false} ReadTerms(n: nat, parts: seq<string>, vals: Vals) returns (e: Expr)
    requires ProperNames(vals) && parts != []
    requires AllReadable(parts, n, vals, '|')
    ensures GoodExpr(e, vals) && PrintExpr(e) == Join(parts, '|') && (|parts| > 1 ==> e.OrElse?)
    ensures e.t.Led? ==> parts[0] != "" && parts[0][0] == '&'
    decreases n, 0, |parts|
  {
    var junk, first := Understood(parts[0], vals);
    var t := AsTerm(junk, first, vals);
    if |parts| == 1 {
      e := Single(t);
    } else {
      var rest := ReadTerms(n, parts[1..], vals);
      e := OrElse(t, rest);
    }
  }

  lemma {:induction false} ReadFactors(n: nat, parts: seq<string>, vals: Vals) returns (t: Term)
    requires ProperNames(vals) && parts != []
    requires AllReadable(parts, n, vals, '&')
    ensures GoodTerm(t, vals) && !t.Led? && PrintTerm(t) == Join(parts, '&') && (|parts| > 1 ==> t.AndAlso?)
    decreases n, 0, |parts|
  {
    var junk, first := Understood(parts[0], vals);
    var f := AsFactor(junk, first, vals);
    if |parts| == 1 {
      t := Alone(f);
    } else {
      var rest := ReadFactors(n, parts[1..], vals);
      t := AndAlso(f, rest);
    }
  }

  // ----- The three cases of the evaluator -----

  lemma {:induction false} LeadIn(s: string) returns (n: nat)
    requires Spaceless(s)
    ensures n <= |s| && Junky(s[..n]) && (n < |s| ==> Starts(s[n]) || s[n] == ')')
    decreases |s|
  {
    n := 0;
    if s != "" && !Starts(s[0]) && s[0] != ')' {
      var k := LeadIn(s[1..]);
      n := k + 1;
      assert s[..n] == [s[0]] + s[1..][..k];
    }
  }

  lemma {:induction false} AllOk(source: string, op: char, parts: seq<string>, vals: Vals)
    requires (forall k :: 0 <= k < |parts| ==> |parts[k]| < |source|) && ResolveAll(source, op, parts, vals).Ok?
    ensures forall k :: 0 <= k < |parts| ==> Resolve(parts[k], vals).Ok?
    decreases |parts|
  {
    if parts != [] {
      var m := |parts| - 1;
      AllOk(source, op, parts[..m], vals);
      forall k | 0 <= k < |parts| ensures Resolve(parts[k], vals).Ok? {
        if k < m { assert parts[..m][k] == parts[k]; }
      }
    }
  }

  lemma {:induction false} JoinSpaceless(parts: seq<string>, op: char)
    requires parts != [] && Spaceless(Join(parts, op))
    ensures forall k :: 0 <= k < |parts| ==> Spaceless(parts[k])
    decreases |parts|
  {
    if |parts| > 1 {
      var u, v := parts[0], Join(parts[1..], op);
      forall i | 0 <= i < |u| ensures !IsSpace(u[i]) { assert Join(parts, op)[i] == u[i]; }
      forall i | 0 <= i < |v| ensures !IsSpace(v[i]) { assert Join(parts, op)[|u| + 1 + i] == v[i]; }
      JoinSpaceless(parts[1..], op);
      forall k | 0 <= k < |parts| ensures Spaceless(parts[k]) {
        if k > 0 { assert parts[k] == parts[1..][k - 1]; }
      }
    }
  }

  lemma {:induction false} JoinQuiet(parts: seq<string>)
    requires parts != [] && Quiet(Join(parts, '&'), '|') && forall k :: 0 <= k < |parts| ==> Depth(parts[k]) == 0
    ensures forall k :: 0 <= k < |parts| ==> Quiet(parts[k], '|')
    decreases |parts|
  {
    if |parts| > 1 {
      var u, v := parts[0], Join(parts[1..], '&');
      DepthChar(u, '&');
      QuietSplit(u + "&", v, '|');
      QuietSplit(u, "&", '|');
      JoinQuiet(parts[1..]);
      forall k | 0 <= k < |parts| ensures Quiet(parts[k], '|') {
        if k > 0 { assert parts[k] == parts[1..][k - 1]; }
      }
    }
  }

  /** What is accepted is balanced. */
  lemma OkDepth(s: string, vals: Vals)
    requires Resolve(s, vals).Ok?
    ensures Depth(s) == 0
  {
    var w := RemoveWhitespaces(s);
    DepthSpaces(s);
    assert w[..0] == "";
    ScanDepth(w, '|', 0, -1, []);
  }

  lemma {:induction false} DepthSpaces(s: string)
    ensures Depth(RemoveWhitespaces(s)) == Depth(s)
  {
    if s != "" {
      var rest := RemoveWhitespaces(s[..|s| - 1]);
      DepthSpaces(s[..|s| - 1]);
      DepthChar(rest, s[|s| - 1]);
    }
  }

  lemma Splits(s: string, n: nat, op: char) returns (parts: seq<string>)
    requires n < |s| && Junky(s[..n]) && Starts(s[n]) && (op == '&' || op == '|') && SingleParse(s, op).Ok?
    ensures SingleParse(s, op) == Ok(parts) && parts != [] && Join(parts, op) == s[n..] && Parted(parts, op)
  {
    assert s == s[..n] + s[n..] && s[n..n] == "";
    ParseFrom(s[..n], s[n..], op);
    parts := Cut("", 0, s[n..], op);
    ScanCuts(s, op, n, n, 0, [], "", s[n..]);
    ScanClean(s, op, n, n, 0, [], s[n..]);
    assert [] + parts == parts && "" + s[n..] == s[n..];
    CutJoins("", 0, s[n..], op);
    CutQuiet("", 0, s[n..], op);
  }

  /** Text that starts with a closing parenthesis, junk aside, is refused. */
  lemma StrayRefused(s: string, n: nat, vals: Vals)
    requires Spaceless(s) && ProperNames(vals) && n < |s| && Junky(s[..n]) && s[n] == ')'
    ensures ResolveRec(s, vals).Err?
  {
    StrayParts(s, n, '|');
    StrayParts(s, n, '&');
    var byOr, byAnd := SingleParse(s, '|'), SingleParse(s, '&');
    if ResolveRec(s, vals).Ok? {
      ScanShorter(s, '|', 0, -1, 0, []);
      ScanShorter(s, '&', 0, -1, 0, []);
      if |byOr.value| > 1 {
        StrayFirst(s, '|', byOr.value, vals);
      } else if |byAnd.value| > 1 {
        StrayFirst(s, '&', byAnd.value, vals);
      }
    }
  }

  lemma StrayParts(s: string, n: nat, op: char)
    requires n < |s| && Junky(s[..n]) && s[n] == ')' && (op == '&' || op == '|')
    ensures SingleParse(s, op).Ok? && |SingleParse(s, op).value| > 1 ==> Depth(SingleParse(s, op).value[0]) != 0
  {
    WholeAt(s[..n], s[n..]);
    assert s == s[..n] + s[n..];
    OverJunk(s, op, 0, s[..n]);
    if SingleParse(s, op).Ok? { StrayScan(s, op, n + 1, -1); }
  }

  lemma StrayFirst(s: string, op: char, parts: seq<string>, vals: Vals)
    requires (forall k :: 0 <= k < |parts| ==> |parts[k]| < |s|) && ResolveAll(s, op, parts, vals).Ok? && |parts| > 1
    ensures Depth(parts[0]) == 0
  {
    AllOk(s, op, parts, vals);
    OkDepth(parts[0], vals);
  }

  ghost predicate AllReadable(parts: seq<string>, n: nat, vals: Vals, op: char) {
    forall k :: 0 <= k < |parts| ==> |parts[k]| < n && Readable(parts[k], vals, op)
  }

  /** Where the first part of an accepted text starts. */
  lemma Begins(s: string, vals: Vals) returns (n: nat)
    requires Spaceless(s) && ProperNames(vals) && ResolveRec(s, vals).Ok?
    ensures n < |s| && Junky(s[..n]) && Starts(s[n])
  {
    n := LeadIn(s);
    if n == |s| {
      WholeAt(s, "");
      assert s + "" == s && s[..n] == s;
      OverJunk(s, '|', 0, s);
      assert false;
    }
    if s[n] == ')' {
      StrayRefused(s, n, vals);
      assert false;
    }
  }

  lemma OrReadable(s: string, n: nat, parts: seq<string>, vals: Vals)
    requires Spaceless(s) && ResolveRec(s, vals).Ok? && n <= |s| && |parts| > 1
    requires SingleParse(s, '|') == Ok(parts) && Join(parts, '|') == s[n..] && Parted(parts, '|')
    ensures AllReadable(parts, |s|, vals, '|')
  {
    ScanShorter(s, '|', 0, -1, 0, []);
    AllOk(s, '|', parts, vals);
    JoinSpaceless(parts, '|');
  }

  lemma AndReadable(s: string, n: nat, parts: seq<string>, vals: Vals)
    requires Spaceless(s) && ResolveRec(s, vals).Ok? && n <= |s| && |parts| > 1
    requires SingleParse(s, '|') == Ok([s[n..]]) && Quiet(s[n..], '|')
    requires SingleParse(s, '&') == Ok(parts) && Join(parts, '&') == s[n..] && Parted(parts, '&')
    ensures AllReadable(parts, |s|, vals, '&')
  {
    ScanShorter(s, '&', 0, -1, 0, []);
    AllOk(s, '&', parts, vals);
    JoinSpaceless(parts, '&');
    JoinQuiet(parts);
  }

  /** The three cases: several terms, several factors, or neither. */
  datatype Shape = ByOr(parts: seq<string>) | ByAnd(parts: seq<string>) | Lone

  ghost predicate Shaped(s: string, n: nat, vals: Vals, shape: Shape)
    requires n <= |s| && s != ""
  {
    match shape
    case ByOr(parts) => |parts| > 1 && Join(parts, '|') == s[n..] && AllReadable(parts, |s|, vals, '|')
    case ByAnd(parts) => |parts| > 1 && Join(parts, '&') == s[n..] && AllReadable(parts, |s|, vals, '&')
    case Lone => ResolveOne(s, vals).Ok? && Quiet(s[n..], '|') && Quiet(s[n..], '&')
  }

  lemma ShapeOf(s: string, n: nat, vals: Vals) returns (shape: Shape)
    requires Spaceless(s) && ResolveRec(s, vals).Ok? && n < |s| && Junky(s[..n]) && Starts(s[n])
    ensures Shaped(s, n, vals, shape)
  {
    var byOr := Splits(s, n, '|');
    if |byOr| > 1 {
      OrReadable(s, n, byOr, vals);
      return ByOr(byOr);
    }
    assert byOr == [s[n..]];
    var byAnd := Splits(s, n, '&');
    if |byAnd| > 1 {
      AndReadable(s, n, byAnd, vals);
      return ByAnd(byAnd);
    }
    assert byAnd == [s[n..]];
    OneOk(s, s[n..], vals);
    return Lone;
  }

  lemma OneOk(s: string, w: string, vals: Vals)
    requires SingleParse(s, '|') == Ok([w]) && SingleParse(s, '&') == Ok([w]) && ResolveRec(s, vals).Ok?
    ensures s != "" && ResolveOne(s, vals).Ok?
  {
  }

  lemma NoJunk(s: string, n: nat)
    requires n < |s| && Junky(s[..n]) && (s[0] == '!' || s[0] == '(')
    ensures n == 0 && s[n..] == s
  {
  }

  /** No operator on the top level. */
  lemma {:induction false} UnderstoodOne(s: string, n: nat, vals: Vals) returns (f: Factor)
    requires Spaceless(s) && ProperNames(vals) && n < |s| && Junky(s[..n]) && ResolveOne(s, vals).Ok?
    requires Quiet(s[n..], '|') && Quiet(s[n..], '&') && Depth(s) == 0
    ensures GoodFactor(f, vals) && PrintFactor(f) == s
    decreases |s|, 0, 1
  {
    if s[0] == '!' || s[0] == '(' {
      NoJunk(s, n);
    }
    if s[0] == '!' {
      var w := s[1..];
      assert s == "!" + w;
      DepthFlat("!");
      QuietSplit("!", w, '|');
      QuietSplit("!", w, '&');
      var junk, e := Understood(w, vals);
      var g := AsFactor(junk, e, vals);
      f := Not(g);
    } else if s[0] == '(' {
      f := UnderstoodParen(s, vals);
    } else {
      f := Name(s);
    }
  }

  lemma {:induction false} UnderstoodParen(s: string, vals: Vals) returns (f: Factor)
    requires Spaceless(s) && ProperNames(vals) && s != "" && s[0] == '(' && ResolveOne(s, vals).Ok? && Depth(s) == 0
    ensures GoodFactor(f, vals) && PrintFactor(f) == s
    decreases |s|, 0, 0
  {
    var w := if |s| >= 2 then s[1..|s| - 1] else "";
    assert Resolve(w, vals).Ok?;
    assert |s| >= 2;
    var c := s[|s| - 1];
    assert s == "(" + w + [c];
    OkDepth(w, vals);
    DepthChar("", '(');
    assert "" + "(" == "(";
    DepthJoin("(", w);
    DepthChar("(" + w, c);
    var junk, e := Understood(w, vals);
    f := Paren(junk, e);
  }

  lemma RecOk(s: string, vals: Vals)
    requires Spaceless(s) && Resolve(s, vals).Ok?
    ensures ResolveRec(s, vals).Ok?
  {
    NothingToRemove(s);
  }

  lemma {:induction false} UnderstoodAs(s: string, n: nat, vals: Vals, shape: Shape) returns (junk: string, e: Expr)
    requires Spaceless(s) && ProperNames(vals) && n < |s| && Junky(s[..n]) && Starts(s[n]) && Depth(s) == 0
    requires Shaped(s, n, vals, shape)
    ensures GoodText(junk, e, vals) && s == junk + PrintExpr(e)
    decreases |s|, 1, 0
  {
    junk := s[..n];
    assert s == junk + s[n..];
    match shape
    case ByOr(parts) =>
      e := ReadTerms(|s|, parts, vals);
      if parts[0] != "" { assert parts[0][0] == s[n..][0]; }
    case ByAnd(parts) =>
      var t := ReadFactors(|s|, parts, vals);
      e := Single(t);
    case Lone =>
      var f := UnderstoodOne(s, n, vals);
      junk, e := "", Single(Alone(f));
  }

  /** A text that is accepted is one of the grammar. */
  lemma {:induction false} Understood(s: string, vals: Vals) returns (junk: string, e: Expr)
    requires Spaceless(s) && ProperNames(vals) && Resolve(s, vals).Ok?
    ensures GoodText(junk, e, vals) && s == junk + PrintExpr(e)
    decreases |s|, 2, 0
  {
    OkDepth(s, vals);
    RecOk(s, vals);
    var n := Begins(s, vals);
    var shape := ShapeOf(s, n, vals);
    junk, e := UnderstoodAs(s, n, vals, shape);
  }

  ghost predicate InLanguage(w: string, vals: Vals) {
    exists junk: string, e: Expr :: GoodText(junk, e, vals) && w == junk + PrintExpr(e)
  }

  /** The evaluator accepts exactly the texts of the grammar. */
  lemma AcceptedExactly(source: string, vals: Vals)
    requires ProperNames(vals)
    ensures Resolve(source, vals).Ok? <==> InLanguage(RemoveWhitespaces(source), vals)
  {
    var w := RemoveWhitespaces(source);
    if Resolve(source, vals).Ok? {
      NothingToRemove(w);
      var junk, e := Understood(w, vals);
    }
    if InLanguage(w, vals) {
      var junk: string, e: Expr :| GoodText(junk, e, vals) && w == junk + PrintExpr(e);
      ResolveCorrect(source, junk, e, vals);
    }
  }

  lemma LoneName(a: string, vals: Vals)
    requires Proper(a) && a in vals && a != "0" && a != "1"
    ensures var t := Alone(Name(a)); GoodTerm(t, vals) && EvalTerm(t, vals) == vals[a] && PrintTerm(t) == a
  {
    var f := Name(a);
    assert GoodFactor(f, vals) && EvalFactor(f, vals) == vals[a] && PrintFactor(f) == a;
  }

  /** An operator before the first of several terms is accepted, though no
      formula starts with one. */
  lemma JunkAccepted(vals: Vals, a: string, b: string)
    requires Proper(a) && Proper(b) && a in vals && b in vals && a != "0" && a != "1" && b != "0" && b != "1"
    ensures Resolve("|" + (a + "|" + b), vals) == Ok(vals[a] || vals[b])
  {
    LoneName(a, vals);
    LoneName(b, vals);
    var t, u := Alone(Name(a)), Alone(Name(b));
    var rest := Single(u);
    assert GoodExpr(rest, vals) && EvalExpr(rest, vals) == vals[b] && PrintExpr(rest) == b;
    var e := OrElse(t, rest);
    SolidExpr(e, vals);
    SolidText("|", PrintExpr(e));
    ResolveCorrect("|" + PrintExpr(e), "|", e, vals);
    assert PrintExpr(e) == a + "|" + b;
  }
}
