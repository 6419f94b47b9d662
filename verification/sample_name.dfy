/** Sample-name variables: a file stem split on `_`, keeping the `letters+number` tokens
    (`parse_opcode` and `parse_sample_name`). */
module SampleNames {
  import opened Wrappers
  import opened Text
  import opened OrderedMaps

  /** `-?\d+\.?\d*` read declaratively: an optional minus, then digits with at most one dot,
      which is not the first character. */
  predicate IsNumberText(v: string) {
    var u := Unsigned(v);
    && |u| >= 1 && IsAsciiDigit(u[0])
    && (forall i :: 0 <= i < |u| ==> IsAsciiDigit(u[i]) || u[i] == '.')
    && (forall i, j :: 0 <= i < j < |u| && u[i] == '.' ==> u[j] != '.')
  }

  /** The text after an optional leading minus. */
  function Unsigned(v: string): string {
    if |v| > 0 && v[0] == '-' then v[1..] else v
  }

  function DigitRun(s: string): (n: nat)
    ensures n <= |s| && forall k :: 0 <= k < n ==> IsAsciiDigit(s[k])
    ensures n < |s| ==> !IsAsciiDigit(s[n])
  {
    if s != [] && IsAsciiDigit(s[0]) then 1 + DigitRun(s[1..]) else 0
  }

  function LetterRun(s: string): (n: nat)
    ensures n <= |s| && forall k :: 0 <= k < n ==> IsAsciiLetter(s[k])
    ensures n < |s| ==> !IsAsciiLetter(s[n])
  {
    if s != [] && IsAsciiLetter(s[0]) then 1 + LetterRun(s[1..]) else 0
  }

  /** The number part of the token regex, scanned left to right. */
  function MatchesNumber(v: string): bool {
    var a := if v != [] && v[0] == '-' then 1 else 0;
    var d := DigitRun(v[a..]);
    var b := a + d;
    d > 0 && (b == |v| || (v[b] == '.' && DigitRun(v[b + 1..]) == |v| - b - 1))
  }

  lemma MatchesNumberIff(v: string)
    ensures MatchesNumber(v) <==> IsNumberText(v)
  {
    if MatchesNumber(v) {
      MatchesNumberSound(v);
    }
    if IsNumberText(v) {
      MatchesNumberComplete(v);
    }
  }

  lemma MatchesNumberSound(v: string)
    requires MatchesNumber(v)
    ensures IsNumberText(v)
  {
    var a := if v != [] && v[0] == '-' then 1 else 0;
    var u := Unsigned(v);
    assert u == v[a..];
    var d := DigitRun(u);
    var b := a + d;
    if b < |v| {
      forall i | d < i < |u| ensures IsAsciiDigit(u[i]) {
        assert u[i] == v[b + 1..][i - d - 1];
      }
    }
  }

  lemma MatchesNumberComplete(v: string)
    requires IsNumberText(v)
    ensures MatchesNumber(v)
  {
    var a := if v != [] && v[0] == '-' then 1 else 0;
    var u := Unsigned(v);
    assert u == v[a..];
    var d := DigitRun(u);
    var b := a + d;
    assert d > 0;
    if b < |v| {
      assert d < |u| && u[d] == v[b];
      assert !IsAsciiDigit(u[d]);
      assert IsAsciiDigit(u[d]) || u[d] == '.';
      var w := v[b + 1..];
      assert AllDigits(w) by {
        forall k | 0 <= k < |w| ensures IsAsciiDigit(w[k]) {
          var j := d + 1 + k;
          assert w[k] == u[j];
          assert u[j] != '.';
        }
      }
      DigitRunOfDigits(w);
    }
  }

  lemma {:induction false} DigitRunOfDigits(w: string)
    requires AllDigits(w)
    ensures DigitRun(w) == |w|
  {
    if w != [] { DigitRunOfDigits(w[1..]); }
  }

  /** `parse_opcode`: a token `letters+number` split into its name and its number text. */
  function ParseOpcode(token: string): (r: Option<(string, string)>)
    ensures r.Some? ==> token == r.value.0 + r.value.1 && |r.value.0| >= 1 && AllLetters(r.value.0) && IsNumberText(r.value.1)
  {
    var n := LetterRun(token);
    MatchesNumberIff(token[n..]);
    assert token == token[..n] + token[n..];
    if n > 0 && MatchesNumber(token[n..]) then Some((token[..n], token[n..])) else None
  }

  /** A token parses exactly when it is a letter name followed by a number text, and then
      parses into those two parts. */
  lemma ParseOpcodeIff(token: string, name: string, value: string)
    ensures ParseOpcode(token) == Some((name, value)) <==>
              token == name + value && |name| >= 1 && AllLetters(name) && IsNumberText(value)
  {
    var n := LetterRun(token);
    MatchesNumberIff(token[n..]);
    if token == name + value && |name| >= 1 && AllLetters(name) && IsNumberText(value) {
      assert value[0] == '-' || IsAsciiDigit(value[0]);
      LetterRunOfLetters(name, value);
      assert token[..n] == name && token[n..] == value;
    }
    if ParseOpcode(token) == Some((name, value)) {
      assert token == token[..n] + token[n..];
    }
  }

  lemma {:induction false} LetterRunOfLetters(a: string, b: string)
    requires AllLetters(a)
    requires b == [] || !IsAsciiLetter(b[0])
    ensures LetterRun(a + b) == |a|
  {
    if a != [] {
      assert (a + b)[1..] == a[1..] + b;
      LetterRunOfLetters(a[1..], b);
    } else {
      assert a + b == b;
    }
  }

  /** The `filter_map` of `parse_sample_name`: the parsed tokens, empty ones skipped. */
  function Opcodes(tokens: seq<string>): (pairs: seq<(string, string)>)
    ensures |pairs| <= |tokens|
  {
    if tokens == [] then []
    else
      var head := if tokens[0] != "" && ParseOpcode(tokens[0]).Some? then [ParseOpcode(tokens[0]).value] else [];
      head + Opcodes(tokens[1..])
  }

  /** `parse_sample_name`: the variables a sample's file stem carries. */
  function ParseSampleName(stem: string): (vars: map<string, string>)
    ensures forall name :: name in vars ==> exists t :: t in Split(stem, '_') && ParseOpcode(t) == Some((name, vars[name]))
  {
    VariablesFromTokens(Split(stem, '_'));
    FromPairs(Opcodes(Split(stem, '_'))).values
  }

  /** Every collected variable comes, with its value, from one of the tokens. */
  lemma VariablesFromTokens(tokens: seq<string>)
    ensures forall name :: name in FromPairs(Opcodes(tokens)).values ==>
              exists t :: t in tokens && ParseOpcode(t) == Some((name, FromPairs(Opcodes(tokens)).values[name]))
  {
    forall name | name in FromPairs(Opcodes(tokens)).values
      ensures exists t :: t in tokens && ParseOpcode(t) == Some((name, FromPairs(Opcodes(tokens)).values[name]))
    {
      var i := LastToken(tokens, name);
      assert tokens[i] in tokens;
    }
  }

  lemma OpcodesSound(tokens: seq<string>, k: nat)
    requires k < |Opcodes(tokens)|
    ensures exists i :: 0 <= i < |tokens| && ParseOpcode(tokens[i]) == Some(Opcodes(tokens)[k])
  {
    OpcodesKept(tokens);
    var i := KeptSource(Results(tokens), k);
    assert ParseOpcode(tokens[i]) == Some(Opcodes(tokens)[k]);
  }

  lemma {:induction false} OpcodesComplete(tokens: seq<string>, i: nat)
    requires i < |tokens| && ParseOpcode(tokens[i]).Some?
    ensures ParseOpcode(tokens[i]).value in Opcodes(tokens)
  {
    var head := if tokens[0] != "" && ParseOpcode(tokens[0]).Some? then [ParseOpcode(tokens[0]).value] else [];
    assert Opcodes(tokens) == head + Opcodes(tokens[1..]);
    if i > 0 {
      assert tokens[1..][i - 1] == tokens[i];
      OpcodesComplete(tokens[1..], i - 1);
    } else {
      assert 0 < LetterRun(tokens[0]) <= |tokens[0]|;
    }
  }

  /** A stem defines the variable `name` exactly when one of its `_`-separated tokens is
      `name` followed by a number text. The variable holds the number text of the last such
      token: a later token with the same name overrides an earlier one. */
  lemma SampleNameVariables(stem: string, name: string)
    ensures name in ParseSampleName(stem) <==>
              exists t :: t in Split(stem, '_') && ParseOpcode(t).Some? && ParseOpcode(t).value.0 == name
    ensures name in ParseSampleName(stem) ==>
              (name + ParseSampleName(stem)[name]) in Split(stem, '_') && IsNumberText(ParseSampleName(stem)[name])
    ensures name in ParseSampleName(stem) ==>
              var tokens := Split(stem, '_');
              exists i :: 0 <= i < |tokens| && ParseOpcode(tokens[i]) == Some((name, ParseSampleName(stem)[name]))
                && forall j :: i < j < |tokens| ==> ParseOpcode(tokens[j]).None? || ParseOpcode(tokens[j]).value.0 != name
  {
    if exists t :: t in Split(stem, '_') && ParseOpcode(t).Some? && ParseOpcode(t).value.0 == name {
      var t :| t in Split(stem, '_') && ParseOpcode(t).Some? && ParseOpcode(t).value.0 == name;
      TokenDefinesVariable(stem, name, t);
    }
    if name in ParseSampleName(stem) {
      VariableFromToken(stem, name);
      var i := LastToken(Split(stem, '_'), name);
    }
  }

  /** The token a variable's value comes from: no later token defines the same name. */
  lemma LastToken(tokens: seq<string>, name: string) returns (i: nat)
    requires name in FromPairs(Opcodes(tokens)).values
    ensures i < |tokens| && ParseOpcode(tokens[i]) == Some((name, FromPairs(Opcodes(tokens)).values[name]))
    ensures forall j :: i < j < |tokens| ==> ParseOpcode(tokens[j]).None? || ParseOpcode(tokens[j]).value.0 != name
  {
    var rs := Results(tokens);
    OpcodesKept(tokens);
    var pairs := Kept(rs);
    var k := LastPair(pairs, name);
    i := KeptSource(rs, k);
    forall j | i < j < |tokens| && ParseOpcode(tokens[j]).Some? ensures ParseOpcode(tokens[j]).value.0 != name {
      assert rs[j] == ParseOpcode(tokens[j]);
      var m :| k < m < |pairs| && pairs[m] == rs[j].value;
    }
  }

  /** What `parse_opcode` gives for each token. */
  function Results(tokens: seq<string>): (rs: seq<Option<(string, string)>>)
    ensures |rs| == |tokens| && forall i :: 0 <= i < |tokens| ==> rs[i] == ParseOpcode(tokens[i])
  {
    seq(|tokens|, i requires 0 <= i < |tokens| => ParseOpcode(tokens[i]))
  }

  /** The values of the results that are present, in order. */
  function Kept(rs: seq<Option<(string, string)>>): seq<(string, string)> {
    if rs == [] then [] else (if rs[0].Some? then [rs[0].value] else []) + Kept(rs[1..])
  }

  /** The pairs of `parse_sample_name` are the values `parse_opcode` gives, in token order. */
  lemma {:induction false} OpcodesKept(tokens: seq<string>)
    ensures Opcodes(tokens) == Kept(Results(tokens))
    decreases |tokens|
  {
    if tokens != [] {
      assert Results(tokens)[1..] == Results(tokens[1..]);
      assert tokens[0] == "" ==> LetterRun(tokens[0]) == 0;
      OpcodesKept(tokens[1..]);
    }
  }

  /** The result the `k`-th kept value comes from, and every later present result is a later
      kept value. */
  lemma {:induction false} KeptSource(rs: seq<Option<(string, string)>>, k: nat) returns (i: nat)
    requires k < |Kept(rs)|
    ensures i < |rs| && rs[i] == Some(Kept(rs)[k])
    ensures forall j :: i < j < |rs| && rs[j].Some? ==> exists m :: k < m < |Kept(rs)| && Kept(rs)[m] == rs[j].value
    decreases |rs|
  {
    var rest := Kept(rs[1..]);
    if rs[0].Some? {
      assert Kept(rs) == [rs[0].value] + rest;
      if k == 0 {
        i := 0;
        forall j | 0 < j < |rs| && rs[j].Some? ensures exists m :: 0 < m < |Kept(rs)| && Kept(rs)[m] == rs[j].value {
          KeptHas(rs[1..], j - 1);
          var m' :| 0 <= m' < |rest| && rest[m'] == rs[j].value;
          assert Kept(rs)[m' + 1] == rest[m'];
        }
        return;
      }
      var i' := KeptSource(rs[1..], k - 1);
      i := i' + 1;
      forall j | i < j < |rs| && rs[j].Some? ensures exists m :: k < m < |Kept(rs)| && Kept(rs)[m] == rs[j].value {
        assert rs[1..][j - 1] == rs[j];
        var m' :| k - 1 < m' < |rest| && rest[m'] == rs[j].value;
        assert Kept(rs)[m' + 1] == rest[m'];
      }
    } else {
      assert Kept(rs) == rest;
      var i' := KeptSource(rs[1..], k);
      i := i' + 1;
      forall j | i < j < |rs| && rs[j].Some? ensures exists m :: k < m < |Kept(rs)| && Kept(rs)[m] == rs[j].value {
        assert rs[1..][j - 1] == rs[j];
      }
    }
  }

  /** Every present result is kept. */
  lemma {:induction false} KeptHas(rs: seq<Option<(string, string)>>, j: nat)
    requires j < |rs| && rs[j].Some?
    ensures exists m :: 0 <= m < |Kept(rs)| && Kept(rs)[m] == rs[j].value
    decreases |rs|
  {
    var h := if rs[0].Some? then [rs[0].value] else [];
    var rest := Kept(rs[1..]);
    assert Kept(rs) == h + rest;
    if j == 0 {
      assert Kept(rs)[0] == rs[0].value;
    } else {
      assert rs[1..][j - 1] == rs[j];
      KeptHas(rs[1..], j - 1);
      var m' :| 0 <= m' < |rest| && rest[m'] == rs[j].value;
      assert Kept(rs)[|h| + m'] == rest[m'];
    }
  }

  /** A single token yields its pair when it parses, and nothing otherwise. */
  lemma OpcodesOne(t: string)
    ensures Opcodes([t]) == (if ParseOpcode(t).Some? then [ParseOpcode(t).value] else [])
  {
    assert [t][1..] == [];
    if t == "" {
      assert LetterRun(t) == 0;
    }
  }

  /** The pairs of two runs of tokens are those of each run, in token order. */
  lemma OpcodesAppend(a: seq<string>, b: seq<string>)
    ensures Opcodes(a + b) == Opcodes(a) + Opcodes(b)
  {
    OpcodesKept(a + b);
    OpcodesKept(a);
    OpcodesKept(b);
    ResultsAppend(a, b);
    KeptAppend(Results(a), Results(b));
  }

  lemma ResultsAppend(a: seq<string>, b: seq<string>)
    ensures Results(a + b) == Results(a) + Results(b)
  {
  }

  lemma {:induction false} KeptAppend(r1: seq<Option<(string, string)>>, r2: seq<Option<(string, string)>>)
    ensures Kept(r1 + r2) == Kept(r1) + Kept(r2)
    decreases |r1|
  {
    if r1 == [] {
      assert r1 + r2 == r2;
    } else {
      assert (r1 + r2)[0] == r1[0];
      assert (r1 + r2)[1..] == r1[1..] + r2;
      KeptAppend(r1[1..], r2);
    }
  }

  lemma TokenDefinesVariable(stem: string, name: string, t: string)
    requires t in Split(stem, '_') && ParseOpcode(t).Some? && ParseOpcode(t).value.0 == name
    ensures name in ParseSampleName(stem)
  {
    var tokens := Split(stem, '_');
    var pairs := Opcodes(tokens);
    FromPairsLastWins(pairs);
    var i :| 0 <= i < |tokens| && tokens[i] == t;
    OpcodesComplete(tokens, i);
    var k :| 0 <= k < |pairs| && pairs[k] == ParseOpcode(t).value;
    assert Firsts(pairs)[k] == name;
  }

  lemma VariableFromToken(stem: string, name: string)
    requires name in ParseSampleName(stem)
    ensures exists t :: t in Split(stem, '_') && ParseOpcode(t).Some? && ParseOpcode(t).value.0 == name
    ensures (name + ParseSampleName(stem)[name]) in Split(stem, '_') && IsNumberText(ParseSampleName(stem)[name])
  {
    var tokens := Split(stem, '_');
    var i := LastToken(tokens, name);
    ParseOpcodeIff(tokens[i], name, ParseSampleName(stem)[name]);
    assert tokens[i] in tokens;
  }
}

/** The unit test of `parse_sample_name`, replayed on the model. */
module SampleNameExamples {
  import opened Wrappers
  import opened Text
  import opened OrderedMaps
  import opened SampleNames

  lemma AcceptedKey()
    ensures ParseOpcode("kEy60") == Some(("kEy", "60"))
  {
    assert LetterRun("kEy60") == 3;
    assert "kEy60"[3..] == "60";
    assert DigitRun("60") == 2;
    assert MatchesNumber("60");
    assert "kEy60"[..3] == "kEy";
  }

  lemma AcceptedPi()
    ensures ParseOpcode("pi3.14") == Some(("pi", "3.14"))
  {
    assert LetterRun("pi3.14") == 2;
    assert "pi3.14"[2..] == "3.14";
    assert DigitRun("3.14") == 1;
    assert "3.14"[2..] == "14";
    assert DigitRun("14") == 2;
    assert MatchesNumber("3.14");
    assert "pi3.14"[..2] == "pi";
  }

  lemma AcceptedTrailingDot()
    ensures ParseOpcode("zdot0.") == Some(("zdot", "0."))
  {
    assert LetterRun("zdot0.") == 4;
    assert "zdot0."[4..] == "0.";
    assert DigitRun("0.") == 1;
    assert "0."[2..] == "";
    assert MatchesNumber("0.");
    assert "zdot0."[..4] == "zdot";
  }

  lemma RejectedSymbols()
    ensures ParseOpcode("$0m@") == None && ParseOpcode("(#)*") == None && ParseOpcode(".str99") == None
  {
  }

  lemma RejectedLeadingDot()
    ensures ParseOpcode("dotz.0") == None
  {
    assert LetterRun("dotz.0") == 4;
    assert "dotz.0"[4..] == ".0";
    assert DigitRun(".0") == 0;
  }

  lemma RejectedTwoDots()
    ensures ParseOpcode("ddd1.2.3") == None
  {
    assert LetterRun("ddd1.2.3") == 3;
    assert "ddd1.2.3"[3..] == "1.2.3";
    assert DigitRun("1.2.3") == 1;
    assert "1.2.3"[2..] == "2.3";
    assert DigitRun("2.3") == 1;
  }

  /** Eight tokens of which only the third, fifth and sixth are opcodes yield those three. */
  lemma OpcodesOfTestTokens(tokens: seq<string>, a: (string, string), b: (string, string), c: (string, string))
    requires |tokens| == 8
    requires ParseOpcode(tokens[0]) == None && ParseOpcode(tokens[1]) == None
    requires ParseOpcode(tokens[2]) == Some(a) && ParseOpcode(tokens[3]) == None
    requires ParseOpcode(tokens[4]) == Some(b) && ParseOpcode(tokens[5]) == Some(c)
    requires ParseOpcode(tokens[6]) == None && ParseOpcode(tokens[7]) == None
    ensures Opcodes(tokens) == [a, b, c]
  {
    OpcodesKept(tokens);
    var rs := Results(tokens);
    KeptOfTest(rs, a, b, c);
  }

  /** Keeping the present results of the test's eight tokens. */
  lemma KeptOfTest(rs: seq<Option<(string, string)>>, a: (string, string), b: (string, string), c: (string, string))
    requires |rs| == 8 && rs[0] == None && rs[1] == None && rs[2] == Some(a) && rs[3] == None
    requires rs[4] == Some(b) && rs[5] == Some(c) && rs[6] == None && rs[7] == None
    ensures Kept(rs) == [a, b, c]
  {
    KeptCons(rs, 7);
    KeptCons(rs, 6);
    KeptCons(rs, 5);
    KeptCons(rs, 4);
    KeptCons(rs, 3);
    KeptCons(rs, 2);
    KeptCons(rs, 1);
    KeptCons(rs, 0);
    assert rs[8..] == [] && rs[0..] == rs;
  }

  /** The result at `k` is kept in front of the later ones. */
  lemma KeptCons(rs: seq<Option<(string, string)>>, k: nat)
    requires k < |rs|
    ensures Kept(rs[k..]) == (if rs[k].Some? then [rs[k].value] else []) + Kept(rs[k + 1..])
  {
    assert rs[k..][0] == rs[k] && rs[k..][1..] == rs[k + 1..];
  }

  lemma ValuesOfThreePairs(pairs: seq<(string, string)>)
    requires pairs == [("kEy", "60"), ("pi", "3.14"), ("zdot", "0.")]
    ensures FromPairs(pairs).values == map["kEy" := "60", "pi" := "3.14", "zdot" := "0."]
  {
    var one := FromPairs(pairs[..1]);
    assert pairs[..1] == [("kEy", "60")];
    assert FromPairs(pairs[..1][..0]) == Empty();
    assert one.values == map["kEy" := "60"];
    var two := FromPairs(pairs[..2]);
    assert pairs[..2][..1] == pairs[..1];
    assert two.values == map["kEy" := "60", "pi" := "3.14"];
  }

  function TestTokens(): seq<string> {
    ["$0m@", "(#)*", "kEy60", ".str99", "pi3.14", "zdot0.", "dotz.0", "ddd1.2.3"]
  }

  lemma TestStemSplits(t: seq<string>)
    requires t == TestTokens()
    ensures Split(Join(t, '_'), '_') == t
  {
    forall k | 0 <= k < |t| ensures '_' !in t[k] {
    }
    SplitJoin(t, '_');
  }

  lemma TestTokenOpcodes(t: seq<string>)
    requires t == TestTokens()
    ensures Opcodes(t) == [("kEy", "60"), ("pi", "3.14"), ("zdot", "0.")]
  {
    RejectedTestTokens(t);
    AcceptedTestTokens(t);
    OpcodesOfTestTokens(t, ("kEy", "60"), ("pi", "3.14"), ("zdot", "0."));
  }

  lemma RejectedTestTokens(t: seq<string>)
    requires t == TestTokens()
    ensures |t| == 8
    ensures ParseOpcode(t[0]) == None && ParseOpcode(t[1]) == None && ParseOpcode(t[3]) == None
    ensures ParseOpcode(t[6]) == None && ParseOpcode(t[7]) == None
  {
    assert t[0] == "$0m@" && t[1] == "(#)*" && t[3] == ".str99";
    assert t[6] == "dotz.0" && t[7] == "ddd1.2.3";
    RejectedSymbols();
    RejectedLeadingDot();
    RejectedTwoDots();
  }

  lemma AcceptedTestTokens(t: seq<string>)
    requires t == TestTokens()
    ensures t[2] != "" && t[4] != "" && t[5] != ""
    ensures ParseOpcode(t[2]) == Some(("kEy", "60"))
    ensures ParseOpcode(t[4]) == Some(("pi", "3.14")) && ParseOpcode(t[5]) == Some(("zdot", "0."))
  {
    assert t[2] == "kEy60" && t[4] == "pi3.14" && t[5] == "zdot0.";
    AcceptedKey();
    AcceptedPi();
    AcceptedTrailingDot();
  }

  /** The stem of the unit test, `$0m@_(#)*_kEy60_.str99_pi3.14_zdot0._dotz.0_ddd1.2.3`, yields
      `kEy=60`, `pi=3.14` and `zdot=0.` and nothing else. */
  lemma SampleNameExample()
    ensures ParseSampleName(Join(TestTokens(), '_')) == map["kEy" := "60", "pi" := "3.14", "zdot" := "0."]
  {
    var t := TestTokens();
    TestStemSplits(t);
    TestTokenOpcodes(t);
    ValuesOfThreePairs(Opcodes(t));
  }
}
