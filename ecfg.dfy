/// Extended context-free grammars (`project/cfg/ecfg.py`, and the copy of
/// `ecfg_from_cfg` in `project/ecfg.py`): every head maps to a regular
/// expression over the grammar's symbols. The expressions are handed to
/// the regular-expression library, so the model keeps them as the text the
/// program builds, and a union as the pair of its alternatives.
module Ecfg {
  import opened Outcome
  import opened Grammars

  /** A regular expression as the program builds it: the text of a body, or the union of two expressions. */
  datatype Pattern = Text(text: string) | Union(left: Pattern, right: Pattern)

  /** The alternatives a pattern unions. */
  function Alternatives(p: Pattern): set<string> {
    match p
    case Text(s) => {s}
    case Union(l, r) => Alternatives(l) + Alternatives(r)
  }

  datatype Ecfg = Ecfg(variables: set<Variable>, terminals: set<string>, start: Variable, productions: map<Variable, Pattern>)

  // ---------------------------------------------------------------- from a grammar

  /** The values of the body's tokens. */
  function Names(body: seq<Token>): (r: seq<string>)
    ensures |r| == |body| && forall i | 0 <= i < |body| :: r[i] == body[i].name
  {
    if |body| == 0 then [] else [body[0].name] + Names(body[1..])
  }

  /** `sep.join(names)`. */
  function Join(names: seq<string>, sep: string): string {
    if |names| == 0 then ""
    else if |names| == 1 then names[0]
    else names[0] + sep + Join(names[1..], sep)
  }

  /** The text of a body: its token values joined by ".", or "$" for the empty body. */
  function BodyText(body: seq<Token>): string {
    if |body| > 0 then Join(Names(body), ".") else "$"
  }

  /** The heads of the productions. */
  function Heads(ps: set<Production>): (r: set<Variable>)
    ensures forall h :: h in r <==> exists p | p in ps :: p.head == h
  {
    set p | p in ps :: p.head
  }

  /** The texts of the bodies of h's productions. */
  function BodiesOf(ps: set<Production>, h: Variable): set<string> {
    set p | p in ps && p.head == h :: BodyText(p.body)
  }

  /**
   * `ecfg_from_cfg`: one pass over the productions; a head seen before
   * has the new body's text unioned into its expression. Every head of a
   * production, and nothing else, gets an expression, whose alternatives
   * are exactly the texts of that head's bodies; the variables, the
   * terminals and the start symbol are kept.
   */
  method EcfgFromCfg(gr: Grammar, terminals: set<string>) returns (e: Ecfg)
    ensures e.variables == gr.variables && e.terminals == terminals && e.start == gr.start
    ensures e.productions.Keys == Heads(gr.productions)
    ensures forall h | h in e.productions :: Alternatives(e.productions[h]) == BodiesOf(gr.productions, h)
  {
    var productions: map<Variable, Pattern> := map[];
    var todo := gr.productions;
    ghost var done: set<Production> := {};
    while todo != {}
      invariant done + todo == gr.productions && done !! todo
      invariant productions.Keys == Heads(done)
      invariant forall h | h in productions :: Alternatives(productions[h]) == BodiesOf(done, h)
      decreases todo
    {
      var p :| p in todo;
      var body := Text(BodyText(p.body));
      if p.head in productions {
        productions := productions[p.head := Union(productions[p.head], body)];
      } else {
        productions := productions[p.head := body];
      }
      BodiesAdd(done, p);
      todo, done := todo - {p}, done + {p};
    }
    e := Ecfg(gr.variables, terminals, gr.start, productions);
  }

  /** A production adds its own body's text to its head's alternatives, and nothing to other heads. */
  lemma BodiesAdd(ps: set<Production>, p: Production)
    ensures BodiesOf(ps + {p}, p.head) == BodiesOf(ps, p.head) + {BodyText(p.body)}
    ensures forall h | h != p.head :: BodiesOf(ps + {p}, h) == BodiesOf(ps, h)
  {
  }

  // ---------------------------------------------------------------- splitting text

  /** The characters Python's `str.isspace` accepts. */
  predicate IsSpace(c: char) {
    || c == ' ' || c == '\t' || c == '\n' || c == '\r' || c == '\U{b}' || c == '\U{c}'
    || ('\U{1c}' <= c <= '\U{1f}') || c == '\U{85}' || c == '\U{a0}' || c == '\U{1680}'
    || ('\U{2000}' <= c <= '\U{200a}') || c == '\U{2028}' || c == '\U{2029}' || c == '\U{202f}'
    || c == '\U{205f}' || c == '\U{3000}'
  }

  /** `s.lstrip()`: the leading whitespace removed. */
  function LStrip(s: string): (r: string)
    ensures |r| <= |s|
    decreases |s|
  {
    if |s| > 0 && IsSpace(s[0]) then LStrip(s[1..]) else s
  }

  /** `s.rstrip()`: the trailing whitespace removed. */
  function RStrip(s: string): (r: string)
    ensures |r| <= |s|
    decreases |s|
  {
    if |s| > 0 && IsSpace(s[|s| - 1]) then RStrip(s[..|s| - 1]) else s
  }

  /** `lstrip` removes exactly the whitespace before the first other character. */
  lemma {:induction false} LStripSpaces(s: string)
    ensures LStrip(s) == s[|s| - |LStrip(s)|..]
    ensures |LStrip(s)| > 0 ==> !IsSpace(LStrip(s)[0])
    ensures forall k | 0 <= k < |s| - |LStrip(s)| :: IsSpace(s[k])
    decreases |s|
  {
    if |s| > 0 && IsSpace(s[0]) {
      LStripSpaces(s[1..]);
      assert forall k | 1 <= k < |s| :: s[k] == s[1..][k - 1];
    }
  }

  /** `rstrip` removes exactly the whitespace after the last other character. */
  lemma {:induction false} RStripSpaces(s: string)
    ensures RStrip(s) == s[..|RStrip(s)|]
    ensures |RStrip(s)| > 0 ==> !IsSpace(RStrip(s)[|RStrip(s)| - 1])
    ensures forall k | |RStrip(s)| <= k < |s| :: IsSpace(s[k])
    decreases |s|
  {
    if |s| > 0 && IsSpace(s[|s| - 1]) {
      RStripSpaces(s[..|s| - 1]);
    }
  }

  /** `s.strip()`. */
  function Strip(s: string): string {
    RStrip(LStrip(s))
  }

  /** Stripping leaves a string alone exactly when neither end is whitespace. */
  lemma StripClean(s: string)
    ensures Strip(s) == s <==> |s| == 0 || (!IsSpace(s[0]) && !IsSpace(s[|s| - 1]))
  {
    if |s| > 0 && !IsSpace(s[0]) && !IsSpace(s[|s| - 1]) {
      assert LStrip(s) == s;
      assert RStrip(s) == s;
    }
  }

  /** sep occurs in s at position k. */
  predicate At(s: string, sep: string, k: nat) {
    k + |sep| <= |s| && s[k..k + |sep|] == sep
  }

  /** `s.find(sep)`, with |s| standing for "not found". */
  function Find(s: string, sep: string): (i: nat)
    requires |sep| > 0
    ensures i <= |s| && (i < |s| ==> At(s, sep, i))
    decreases |s|
  {
    if |s| < |sep| then |s|
    else if s[..|sep|] == sep then 0
    else
      var i := 1 + Find(s[1..], sep);
      if i < |s| then
        assert s[1..][i - 1..i - 1 + |sep|] == s[i..i + |sep|];
        i
      else i
  }

  /** Find returns the first occurrence: sep occurs nowhere before it. */
  lemma {:induction false} FindFirst(s: string, sep: string)
    requires |sep| > 0
    ensures forall k: nat | k < Find(s, sep) :: !At(s, sep, k)
    decreases |s|
  {
    if |s| >= |sep| && s[..|sep|] != sep {
      FindFirst(s[1..], sep);
      assert Find(s, sep) == 1 + Find(s[1..], sep);
      forall k: nat | 1 <= k < Find(s, sep)
        ensures !At(s, sep, k)
      {
        assert !At(s[1..], sep, k - 1);
        AtShift(s, sep, k);
      }
    }
  }

  /** sep occurs at k - 1 in the tail of s exactly when it occurs at k in s. */
  lemma AtShift(s: string, sep: string, k: nat)
    requires 1 <= k && |s| > 0
    ensures At(s[1..], sep, k - 1) == At(s, sep, k)
  {
    if k + |sep| <= |s| {
      var a, b := s[1..][k - 1..k - 1 + |sep|], s[k..k + |sep|];
      forall i | 0 <= i < |sep|
        ensures a[i] == b[i]
      {
      }
      assert a == b;
    }
  }

  /** A position where sep occurs, or the end, with no occurrence before it, is what Find returns. */
  lemma FindIs(s: string, sep: string, j: nat)
    requires |sep| > 0 && (j == |s| || At(s, sep, j))
    requires forall k: nat | k < j :: !At(s, sep, k)
    ensures Find(s, sep) == j
  {
    FindFirst(s, sep);
  }

  /** `s.split(sep)`: the pieces between the occurrences of sep, left to right. */
  function Split(s: string, sep: string): (parts: seq<string>)
    requires |sep| > 0
    ensures |parts| >= 1
    decreases |s|
  {
    var i := Find(s, sep);
    if i == |s| then [s] else [s[..i]] + Split(s[i + |sep|..], sep)
  }

  /** Splitting on a one-character separator undoes joining pieces that do not contain it. */
  lemma {:induction false} SplitJoin(names: seq<string>, c: char)
    requires |names| >= 1 && forall i | 0 <= i < |names| :: c !in names[i]
    ensures Split(Join(names, [c]), [c]) == names
  {
    var s := Join(names, [c]);
    var n := names[0];
    if |names| == 1 {
      forall k: nat | k < |n|
        ensures !At(n, [c], k)
      {
        assert n[k] in n;
      }
      FindIs(n, [c], |n|);
    } else {
      assert s == n + [c] + Join(names[1..], [c]);
      assert At(s, [c], |n|);
      forall k: nat | k < |n|
        ensures !At(s, [c], k)
      {
        assert s[k] == n[k] && n[k] in n;
      }
      FindIs(s, [c], |n|);
      assert s[..|n|] == n;
      assert s[|n| + 1..] == Join(names[1..], [c]);
      assert Split(s, [c]) == [n] + Split(Join(names[1..], [c]), [c]);
      SplitJoin(names[1..], c);
      assert names == [n] + names[1..];
    }
  }

  /** The text of a non-empty body splits on "." back into its token values when none contains ".". */
  lemma BodyTextSplits(body: seq<Token>)
    requires |body| >= 1 && forall i | 0 <= i < |body| :: '.' !in body[i].name
    ensures Split(BodyText(body), ".") == Names(body)
  {
    SplitJoin(Names(body), '.');
  }

  // ---------------------------------------------------------------- from text

  /** The characters `str.islower` accepts, restricted to ASCII. */
  predicate IsLower(c: char) {
    'a' <= c <= 'z'
  }

  /** The terminals a body mentions: each lowercase character on its own. */
  function LowerChars(body: string): (r: set<string>)
    ensures forall t :: t in r <==> |t| == 1 && t[0] in body && IsLower(t[0])
  {
    var r := set c | c in body && IsLower(c) :: [c];
    forall t | |t| == 1 && t[0] in body && IsLower(t[0])
      ensures t in r
    {
      assert t == [t[0]];
    }
    r
  }

  /** Reading one more character of a body adds it as a terminal exactly when it is lowercase. */
  lemma LowerSnoc(seen: string, c: char)
    ensures LowerChars(seen + [c]) == LowerChars(seen) + (if IsLower(c) then {[c]} else {})
  {
  }

  /**
   * `[head, body] = line.strip().split("->")` and `head.rstrip()`: a line
   * that does not split into exactly two parts is a `ValueError`.
   */
  function ParseLine(line: string): Result<(Variable, string)> {
    var parts := Split(Strip(line), "->");
    if |parts| != 2 then Failure(ValueError) else Success((RStrip(parts[0]), parts[1]))
  }

  /**
   * A line written as head, "->", body, with no arrow in either part,
   * no leading whitespace and no trailing whitespace, reads back as the
   * head without trailing blanks and the body as written.
   */
  lemma ParseRender(h: string, b: string)
    requires forall k: nat :: !At(h, "->", k)
    requires forall k: nat :: !At(b, "->", k)
    requires |h| > 0 ==> !IsSpace(h[0])
    requires |b| > 0 ==> !IsSpace(b[|b| - 1])
    ensures ParseLine(h + "->" + b) == Success((RStrip(h), b))
  {
    LineClean(h, b);
    ArrowSplit(h, b);
    ParseSplit(h + "->" + b, h, b);
  }

  /** A line that is already stripped and splits into two parts reads as those parts. */
  lemma ParseSplit(line: string, h: string, b: string)
    requires Strip(line) == line && Split(line, "->") == [h, b]
    ensures ParseLine(line) == Success((RStrip(h), b))
  {
  }

  /** Such a line has nothing to strip. */
  lemma LineClean(h: string, b: string)
    requires |h| > 0 ==> !IsSpace(h[0])
    requires |b| > 0 ==> !IsSpace(b[|b| - 1])
    ensures Strip(h + "->" + b) == h + "->" + b
  {
    var line := h + "->" + b;
    assert line[0] == (if |h| > 0 then h[0] else '-');
    assert line[|line| - 1] == (if |b| > 0 then b[|b| - 1] else '>');
    StripClean(line);
  }

  /** The line splits on its one arrow into the head and the body. */
  lemma ArrowSplit(h: string, b: string)
    requires forall k: nat :: !At(h, "->", k)
    requires forall k: nat :: !At(b, "->", k)
    ensures Split(h + "->" + b, "->") == [h, b]
  {
    var line := h + "->" + b;
    assert line[|h|..|h| + 2] == "->";
    forall k: nat | k < |h|
      ensures !At(line, "->", k)
    {
      if k + 1 < |h| {
        assert line[k..k + 2] == h[k..k + 2];
        assert !At(h, "->", k);
      } else {
        assert line[k..k + 2][1] == line[k + 1] == '-';
      }
    }
    FindIs(line, "->", |h|);
    assert line[..|h|] == h;
    assert line[|h| + 2..] == b;
    FindIs(b, "->", |b|);
  }

  /** The empty grammar text reading starts from. */
  function Empty(start: Variable): Ecfg {
    Ecfg({}, {}, start, map[])
  }

  /** What one parsed line does: its head becomes a variable, its lowercase characters terminals, and its body replaces the head's expression. */
  function Apply(e: Ecfg, h: Variable, b: string): Ecfg {
    Ecfg(e.variables + {h}, e.terminals + LowerChars(b), e.start, e.productions[h := Text(b)])
  }

  /** The loop of `ecfg_from_text` over the lines, as a fold: empty lines are skipped and the first bad line fails. */
  function ReadAll(lines: seq<string>, e: Ecfg): Result<Ecfg>
    decreases |lines|
  {
    if |lines| == 0 then Success(e)
    else if lines[0] == "" then ReadAll(lines[1..], e)
    else
      var parsed := ParseLine(lines[0]);
      if parsed.Failure? then Failure(parsed.error)
      else ReadAll(lines[1..], Apply(e, parsed.value.0, parsed.value.1))
  }

  /** The accumulators `_read_line` fills in place. */
  class EcfgReader {
    var variables: set<Variable>
    var terminals: set<string>
    var productions: map<Variable, Pattern>

    constructor ()
      ensures variables == {} && terminals == {} && productions == map[]
    {
      variables, terminals, productions := {}, {}, map[];
    }

    /** The collected grammar with the given start symbol. */
    function Current(start: Variable): Ecfg
      reads this
    {
      Ecfg(variables, terminals, start, productions)
    }

    /**
     * `_read_line`: a line that does not split into head and body fails
     * with `ValueError` and changes nothing; otherwise its head is added
     * to the variables, its lowercase characters to the terminals, and its
     * body replaces the head's expression.
     */
    method ReadLine(line: string) returns (r: Result<Variable>)
      modifies this
      ensures r.Failure? <==> ParseLine(line).Failure?
      ensures r.Failure? ==> r.error == ParseLine(line).error && unchanged(this)
      ensures r.Success? ==> r.value == ParseLine(line).value.0
      ensures forall start :: ParseLine(line).Success? ==>
                Current(start) == Apply(old(Current(start)), ParseLine(line).value.0, ParseLine(line).value.1)
    {
      var parts := Split(Strip(line), "->");
      if |parts| != 2 {
        return Failure(ValueError);
      }
      var head, body := parts[0], parts[1];
      head := RStrip(head);
      assert ParseLine(line) == Success((head, body));
      variables := variables + {head};
      AddTerminals(body);
      productions := productions[head := Text(body)];
      r := Success(head);
    }

    /** `for symbol in body: if symbol.islower(): terminals.add(...)`. */
    method AddTerminals(body: string)
      modifies this
      ensures terminals == old(terminals) + LowerChars(body)
      ensures variables == old(variables) && productions == old(productions)
    {
      var i := 0;
      while i < |body|
        invariant 0 <= i <= |body|
        invariant terminals == old(terminals) + LowerChars(body[..i])
        invariant variables == old(variables) && productions == old(productions)
      {
        var sym := body[i];
        if IsLower(sym) {
          terminals := terminals + {[sym]};
        }
        LowerSnoc(body[..i], sym);
        assert body[..i + 1] == body[..i] + [sym];
        i := i + 1;
      }
      assert body[..i] == body;
    }
  }

  /**
   * `ecfg_from_text`: the stripped text split on newlines, empty lines
   * skipped, every other line read in order; the result is the fold of
   * the lines, or the first line's failure.
   */
  method EcfgFromText(text: string, start: Variable := "S") returns (r: Result<Ecfg>)
    ensures r == ReadAll(Split(Strip(text), "\n"), Empty(start))
  {
    var lines := Split(Strip(text), "\n");
    var reader := new EcfgReader();
    var i := 0;
    while i < |lines|
      invariant 0 <= i <= |lines|
      invariant ReadAll(lines, Empty(start)) == ReadAll(lines[i..], reader.Current(start))
    {
      var line := lines[i];
      if line != "" {
        var read := reader.ReadLine(line);
        if read.Failure? {
          return Failure(read.error);
        }
      }
      i := i + 1;
    }
    r := Success(reader.Current(start));
  }

  // ---------------------------------------------------------------- properties of reading

  /** Reading succeeds exactly when every non-empty line splits into head and body. */
  lemma {:induction false} ReadAllSucceeds(lines: seq<string>, e: Ecfg)
    ensures ReadAll(lines, e).Success? <==> forall i | 0 <= i < |lines| && lines[i] != "" :: ParseLine(lines[i]).Success?
    decreases |lines|
  {
    if |lines| > 0 {
      assert forall i | 1 <= i < |lines| :: lines[i] == lines[1..][i - 1];
      if lines[0] == "" {
        ReadAllSucceeds(lines[1..], e);
      } else if ParseLine(lines[0]).Success? {
        var (h, b) := ParseLine(lines[0]).value;
        ReadAllSucceeds(lines[1..], Apply(e, h, b));
      }
    }
  }

  /** Every variable read has an expression and every expression belongs to a variable read. */
  lemma {:induction false} ReadAllKeys(lines: seq<string>, e: Ecfg)
    requires e.productions.Keys == e.variables
    ensures ReadAll(lines, e).Success? ==> ReadAll(lines, e).value.productions.Keys == ReadAll(lines, e).value.variables
    decreases |lines|
  {
    if |lines| > 0 {
      if lines[0] == "" {
        ReadAllKeys(lines[1..], e);
      } else if ParseLine(lines[0]).Success? {
        var (h, b) := ParseLine(lines[0]).value;
        ReadAllKeys(lines[1..], Apply(e, h, b));
      }
    }
  }

  /** Reading one more line continues from what the earlier lines read. */
  lemma {:induction false} ReadAllSnoc(lines: seq<string>, l: string, e: Ecfg)
    ensures ReadAll(lines + [l], e) == match ReadAll(lines, e)
                                       case Failure(err) => Failure(err)
                                       case Success(e') => ReadAll([l], e')
    decreases |lines|
  {
    if |lines| > 0 {
      assert (lines + [l])[1..] == lines[1..] + [l];
      if lines[0] == "" {
        ReadAllSnoc(lines[1..], l, e);
      } else if ParseLine(lines[0]).Success? {
        var (h, b) := ParseLine(lines[0]).value;
        ReadAllSnoc(lines[1..], l, Apply(e, h, b));
      }
    }
  }

  /**
   * A later line for a head replaces the earlier one: after reading a
   * line with head h and body b last, h's expression is exactly b,
   * whatever the earlier lines gave h.
   */
  lemma LastLineWins(lines: seq<string>, l: string, e: Ecfg)
    requires l != "" && ParseLine(l).Success? && ReadAll(lines, e).Success?
    ensures var (h, b) := ParseLine(l).value;
            && ReadAll(lines + [l], e).Success?
            && h in ReadAll(lines + [l], e).value.productions
            && ReadAll(lines + [l], e).value.productions[h] == Text(b)
  {
    ReadAllSnoc(lines, l, e);
  }

  // ---------------------------------------------------------------- the grammar the tests use

  /** `S -> a C b`, `C -> $`. */
  function SampleGrammar(): Grammar {
    Grammar({"S", "C"}, "S", {Production("S", [Term("a"), Var("C"), Term("b")]), Production("C", [])})
  }

  /** The sample's expressions: S has the single alternative "a.C.b" and C the single alternative "$". */
  lemma SampleBodies()
    ensures Heads(SampleGrammar().productions) == {"S", "C"}
    ensures BodiesOf(SampleGrammar().productions, "S") == {"a.C.b"}
    ensures BodiesOf(SampleGrammar().productions, "C") == {"$"}
  {
    var ps := SampleGrammar().productions;
    var s := Production("S", [Term("a"), Var("C"), Term("b")]);
    var c := Production("C", []);
    assert Names(s.body) == ["a", "C", "b"];
    assert BodyText(s.body) == "a.C.b";
    assert BodiesOf(ps, "S") == {BodyText(s.body)};
    assert BodiesOf(ps, "C") == {BodyText(c.body)};
  }
}
