/**
 * The camera-parameter text file read by `load_K_and_baseline` and written
 * by `save_K_and_baseline`: whitespace-separated numbers, where a line with
 * exactly one number is the stereo baseline and every other line adds its
 * numbers to the values of K.
 */
module ParamFile {
  import opened Wrappers
  import opened Intrinsics

  // ---------------------------------------------------------------------
  // Lines and tokens
  // ---------------------------------------------------------------------

  /** The characters Python's `str.isspace` accepts, where `str.split()` breaks. */
  predicate IsSpace(c: char) {
    c == ' ' || '\t' <= c <= '\r' || '\U{1c}' <= c <= '\U{1f}' || c == '\U{85}' || c == '\U{a0}'
    || c == '\U{1680}' || '\U{2000}' <= c <= '\U{200a}' || c == '\U{2028}' || c == '\U{2029}'
    || c == '\U{202f}' || c == '\U{205f}' || c == '\U{3000}'
  }

  /** A word `str.split()` can return: non-empty, with no white space. */
  predicate IsToken(t: string) {
    |t| > 0 && forall i :: 0 <= i < |t| ==> !IsSpace(t[i])
  }

  /** The length of the run of non-space characters that starts `s`. */
  function WordLength(s: string): (n: nat)
    ensures n <= |s|
    ensures forall i :: 0 <= i < n ==> !IsSpace(s[i])
    ensures n < |s| ==> IsSpace(s[n])
  {
    if s == [] || IsSpace(s[0]) then 0 else 1 + WordLength(s[1..])
  }

  /** `line.strip().split()`: the maximal runs of non-space characters, in order. */
  function Split(line: string): (tokens: seq<string>)
    ensures forall i :: 0 <= i < |tokens| ==> IsToken(tokens[i])
    decreases |line|
  {
    if line == [] then []
    else if IsSpace(line[0]) then Split(line[1..])
    else
      var n := WordLength(line);
      [line[..n]] + Split(line[n..])
  }

  /** `' '.join(tokens)`: joining words gives text on one line, whose only white space is the separators. */
  function Join(tokens: seq<string>): (r: string)
    ensures (forall i :: 0 <= i < |tokens| ==> IsToken(tokens[i])) ==>
              forall i :: 0 <= i < |r| ==> r[i] != '\n' && (IsSpace(r[i]) ==> r[i] == ' ')
  {
    if tokens == [] then ""
    else if |tokens| == 1 then tokens[0]
    else tokens[0] + " " + Join(tokens[1..])
  }

  lemma {:induction false} SplitSpaces(w: string)
    requires forall i :: 0 <= i < |w| ==> IsSpace(w[i])
    ensures Split(w) == []
    decreases |w|
  {
    if w != [] {
      SplitSpaces(w[1..]);
    }
  }

  lemma SplitAfterSpace(c: char, s: string)
    requires IsSpace(c)
    ensures Split([c] + s) == Split(s)
  {
    assert ([c] + s)[1..] == s;
  }

  lemma {:induction false} WordLengthAppend(t: string, rest: string)
    requires forall i :: 0 <= i < |t| ==> !IsSpace(t[i])
    requires rest == [] || IsSpace(rest[0])
    ensures WordLength(t + rest) == |t|
    decreases |t|
  {
    if t == [] {
      assert t + rest == rest;
    } else {
      assert (t + rest)[1..] == t[1..] + rest;
      WordLengthAppend(t[1..], rest);
    }
  }

  lemma SplitWord(t: string, rest: string)
    requires IsToken(t)
    requires rest == [] || IsSpace(rest[0])
    ensures Split(t + rest) == [t] + Split(rest)
  {
    var s := t + rest;
    WordLengthAppend(t, rest);
    assert s[..|t|] == t && s[|t|..] == rest;
  }

  /**
   * Splitting what `' '.join` produced, with any trailing white space such
   * as the line's `'\n'`, gives back the words joined.
   */
  lemma {:induction false} SplitJoin(tokens: seq<string>, w: string)
    requires forall i :: 0 <= i < |tokens| ==> IsToken(tokens[i])
    requires forall i :: 0 <= i < |w| ==> IsSpace(w[i])
    ensures Split(Join(tokens) + w) == tokens
    decreases |tokens|
  {
    if tokens == [] {
      assert Join(tokens) + w == w;
      SplitSpaces(w);
    } else if |tokens| == 1 {
      SplitWord(tokens[0], w);
      SplitSpaces(w);
    } else {
      var t0, more := tokens[0], tokens[1..];
      var rest := Join(more) + w;
      JoinCons(tokens, w);
      SplitWord(t0, [' '] + rest);
      SplitAfterSpace(' ', rest);
      SplitJoin(more, w);
      assert tokens == [t0] + more;
    }
  }

  lemma JoinCons(tokens: seq<string>, w: string)
    requires |tokens| > 1
    ensures Join(tokens) + w == tokens[0] + ([' '] + (Join(tokens[1..]) + w))
  {
    var t0, rest := tokens[0], Join(tokens[1..]);
    assert Join(tokens) == t0 + [' '] + rest;
    Regroup(t0, [' '], rest, w);
  }

  lemma Regroup(a: string, b: string, c: string, d: string)
    ensures a + b + c + d == a + (b + (c + d))
  {
  }

  /** The strings of `lines` one after the other. */
  function Concat(lines: seq<string>): string {
    if lines == [] then "" else lines[0] + Concat(lines[1..])
  }

  /** The length of the first line of `s`, its `'\n'` included. */
  function LineLength(s: string): (n: nat)
    requires s != []
    ensures 0 < n <= |s|
    ensures forall i :: 0 <= i < n - 1 ==> s[i] != '\n'
    ensures n < |s| ==> s[n - 1] == '\n'
  {
    if s[0] == '\n' || |s| == 1 then 1 else 1 + LineLength(s[1..])
  }

  /**
   * `f.readlines()` on text whose line ends are already `'\n'`: every line
   * keeps its `'\n'`, only the last may lack one, and together they are
   * the text.
   */
  function ReadLines(text: string): (lines: seq<string>)
    ensures Concat(lines) == text
    ensures forall i :: 0 <= i < |lines| ==> lines[i] != []
    ensures forall i :: 0 <= i < |lines| - 1 ==> lines[i][|lines[i]| - 1] == '\n'
    ensures forall i, j :: 0 <= i < |lines| && 0 <= j < |lines[i]| - 1 ==> lines[i][j] != '\n'
    decreases |text|
  {
    if text == [] then []
    else
      var n := LineLength(text);
      var rest := ReadLines(text[n..]);
      assert text == text[..n] + text[n..];
      [text[..n]] + rest
  }

  lemma {:induction false} LineLengthAppend(a: string, rest: string)
    requires forall i :: 0 <= i < |a| ==> a[i] != '\n'
    ensures LineLength(a + "\n" + rest) == |a| + 1
    decreases |a|
  {
    if a != [] {
      assert (a + "\n" + rest)[1..] == a[1..] + "\n" + rest;
      LineLengthAppend(a[1..], rest);
    }
  }

  lemma ReadLinesCons(a: string, rest: string)
    requires forall i :: 0 <= i < |a| ==> a[i] != '\n'
    ensures ReadLines(a + "\n" + rest) == [a + "\n"] + ReadLines(rest)
  {
    var s := a + "\n" + rest;
    LineLengthAppend(a, rest);
    var n := |a| + 1;
    assert s[..n] == a + "\n" && s[n..] == rest;
  }

  // ---------------------------------------------------------------------
  // Loading
  // ---------------------------------------------------------------------

  /** Python's `float(token)`, with None where it raises ValueError. */
  type Parser = string -> Option<real>

  datatype LoadError =
    | NotANumber(token: string)   // `float()` rejected this token
    | InvalidKFormat              // fewer than 9 values for K

  datatype Params = Params(k: Matrix, baseline: Option<real>)

  /** `[float(v) for v in tokens]`: stops at the first token that does not parse. */
  function ParseAll(tokens: seq<string>, parse: Parser): (r: Result<seq<real>, LoadError>)
    ensures r.Success? <==> forall i :: 0 <= i < |tokens| ==> parse(tokens[i]).Some?
    ensures r.Success? ==> |r.value| == |tokens|
                           && forall i :: 0 <= i < |tokens| ==> parse(tokens[i]) == Some(r.value[i])
    ensures r.Failure? ==> exists i :: 0 <= i < |tokens| && parse(tokens[i]).None?
                                       && r.error == NotANumber(tokens[i])
                                       && forall j :: 0 <= j < i ==> parse(tokens[j]).Some?
  {
    if tokens == [] then Success([])
    else
      match parse(tokens[0])
      case None => Failure(NotANumber(tokens[0]))
      case Some(v) =>
        var rest := ParseAll(tokens[1..], parse);
        if rest.Failure? then
          Failure(rest.error)
        else
          Success([v] + rest.value)
  }

  lemma {:induction false} ParseAllAppend(a: seq<string>, b: seq<string>, parse: Parser)
    ensures ParseAll(a + b, parse) ==
            if ParseAll(a, parse).Failure? then ParseAll(a, parse)
            else if ParseAll(b, parse).Failure? then ParseAll(b, parse)
            else Success(ParseAll(a, parse).value + ParseAll(b, parse).value)
    decreases |a|
  {
    if a != [] {
      assert (a + b)[0] == a[0] && (a + b)[1..] == a[1..] + b;
      ParseAllAppend(a[1..], b, parse);
      if parse(a[0]).Some? {
        var v := parse(a[0]).value;
        var ra := ParseAll(a[1..], parse);
        if ra.Success? && ParseAll(b, parse).Success? {
          assert [v] + (ra.value + ParseAll(b, parse).value) == ([v] + ra.value) + ParseAll(b, parse).value;
        }
      }
    } else {
      assert a + b == b;
      assert ParseAll(b, parse).Success? ==> [] + ParseAll(b, parse).value == ParseAll(b, parse).value;
    }
  }

  /** The loop's work on one line: a one-token line sets the baseline, any other line extends `k_values`. */
  function ScanLine(acc: (seq<real>, Option<real>), line: string, parse: Parser)
    : (r: Result<(seq<real>, Option<real>), LoadError>)
    ensures r.Failure? <==> exists i :: 0 <= i < |Split(line)| && parse(Split(line)[i]).None?
    ensures r.Failure? ==> r.error.NotANumber? && r.error.token in Split(line)
    ensures r.Success? && |Split(line)| == 1 ==> r.value == (acc.0, parse(Split(line)[0]))
    ensures r.Success? && |Split(line)| != 1 ==>
              && r.value.1 == acc.1 && |r.value.0| == |acc.0| + |Split(line)| && r.value.0[..|acc.0|] == acc.0
              && forall i :: 0 <= i < |Split(line)| ==> parse(Split(line)[i]) == Some(r.value.0[|acc.0| + i])
  {
    var values := Split(line);
    if |values| == 1 then
      match parse(values[0])
      case None => Failure(NotANumber(values[0]))
      case Some(b) => Success((acc.0, Some(b)))
    else
      var vs := ParseAll(values, parse);
      if vs.Failure? then
        assert exists i :: 0 <= i < |Split(line)| && parse(Split(line)[i]).None?;
        Failure(vs.error)
      else Success((acc.0 + vs.value, acc.1))
  }

  /** `(k_values, baseline)` after the loop has read `lines`, or the error it raised. */
  function Scan(lines: seq<string>, parse: Parser): (r: Result<(seq<real>, Option<real>), LoadError>)
    ensures r.Failure? ==> r.error.NotANumber? && exists i :: 0 <= i < |lines| && r.error.token in Split(lines[i])
    decreases |lines|
  {
    if lines == [] then Success(([], None))
    else
      var acc :- Scan(lines[..|lines| - 1], parse);
      ScanLine(acc, lines[|lines| - 1], parse)
  }

  /** The nine values of K, row by row (`np.array(values).reshape(3, 3)`). */
  function Reshape(v: seq<real>): (m: Matrix)
    requires |v| == 9
    ensures Is3x3(m)
    ensures forall i, j :: 0 <= i < 3 && 0 <= j < 3 ==> m[i][j] == v[3 * i + j]
  {
    [v[0..3], v[3..6], v[6..9]]
  }

  /** `load_K_and_baseline` on the lines of the file. */
  function Load(lines: seq<string>, parse: Parser): (r: Result<Params, LoadError>)
    ensures r.Success? ==> Is3x3(r.value.k)
  {
    var acc :- Scan(lines, parse);
    if |acc.0| >= 9 then Success(Params(Reshape(acc.0[..9]), acc.1))
    else Failure(InvalidKFormat)
  }

  // The same file, described line by line rather than by the loop.

  /** Every token of the file, in order. */
  function AllTokens(lines: seq<string>): seq<string>
    decreases |lines|
  {
    if lines == [] then [] else AllTokens(lines[..|lines| - 1]) + Split(lines[|lines| - 1])
  }

  /** The tokens of every line that does not hold exactly one token, in order. */
  function KTokens(lines: seq<string>): seq<string>
    decreases |lines|
  {
    if lines == [] then []
    else
      var last := Split(lines[|lines| - 1]);
      KTokens(lines[..|lines| - 1]) + (if |last| == 1 then [] else last)
  }

  predicate OneToken(line: string) {
    |Split(line)| == 1
  }

  /** No line after the `i`-th holds exactly one token. */
  predicate NoOneTokenLineAfter(lines: seq<string>, i: nat) {
    forall j :: i < j < |lines| ==> !OneToken(lines[j])
  }

  /** The token of the last line that holds exactly one token. */
  function BaselineToken(lines: seq<string>): Option<string>
    decreases |lines|
  {
    if lines == [] then None
    else
      if OneToken(lines[|lines| - 1]) then Some(Split(lines[|lines| - 1])[0])
      else BaselineToken(lines[..|lines| - 1])
  }

  /**
   * There is a baseline token exactly when some line holds one token, and
   * it is the token of a line after which no line holds exactly one.
   */
  lemma {:induction false} BaselineTokenMeaning(lines: seq<string>)
    ensures BaselineToken(lines).None? <==> forall i :: 0 <= i < |lines| ==> !OneToken(lines[i])
    ensures BaselineToken(lines).Some? ==>
              exists i :: 0 <= i < |lines| && Split(lines[i]) == [BaselineToken(lines).value]
                          && NoOneTokenLineAfter(lines, i)
    decreases |lines|
  {
    if lines != [] {
      var init := lines[..|lines| - 1];
      var i := |lines| - 1;
      if OneToken(lines[i]) {
        var last := Split(lines[i]);
        assert last == [last[0]];
        assert NoOneTokenLineAfter(lines, i);
      } else {
        BaselineTokenMeaning(init);
        assert forall j :: 0 <= j < |init| ==> init[j] == lines[j];
        if BaselineToken(init).Some? {
          var k :| 0 <= k < |init| && Split(init[k]) == [BaselineToken(init).value]
                   && NoOneTokenLineAfter(init, k);
          assert Split(lines[k]) == [BaselineToken(lines).value];
          assert NoOneTokenLineAfter(lines, k);
        }
      }
    }
  }

  /**
   * The loop fails exactly when some token of the file does not parse, and
   * then with the first such token; otherwise `k_values` holds the values
   * of the tokens of all lines but the one-token lines, in order, and the
   * baseline is the value of the last one-token line.
   */
  lemma {:induction false} ScanMeaning(lines: seq<string>, parse: Parser)
    ensures Scan(lines, parse).Success? <==> ParseAll(AllTokens(lines), parse).Success?
    ensures Scan(lines, parse).Failure? ==>
              Scan(lines, parse).error == ParseAll(AllTokens(lines), parse).error
    ensures Scan(lines, parse).Success? ==>
              ParseAll(KTokens(lines), parse).Success?
              && Scan(lines, parse).value.0 == ParseAll(KTokens(lines), parse).value
    ensures Scan(lines, parse).Success? ==>
              (Scan(lines, parse).value.1.Some? <==> BaselineToken(lines).Some?)
              && (BaselineToken(lines).Some? ==>
                    parse(BaselineToken(lines).value) == Some(Scan(lines, parse).value.1.value))
    decreases |lines|
  {
    if lines != [] {
      var init, line := lines[..|lines| - 1], lines[|lines| - 1];
      var values := Split(line);
      ScanMeaning(init, parse);
      ParseAllAppend(AllTokens(init), values, parse);
      if |values| == 1 {
        assert KTokens(lines) == KTokens(init) + [];
      } else {
        ParseAllAppend(KTokens(init), values, parse);
      }
    }
  }

  /**
   * `load_K_and_baseline` succeeds exactly when every token parses and at
   * least nine values belong to K; K then holds the first nine of them,
   * row by row, and further values are ignored.
   */
  lemma LoadMeaning(lines: seq<string>, parse: Parser)
    ensures Load(lines, parse).Success? <==>
              ParseAll(AllTokens(lines), parse).Success? && |KTokens(lines)| >= 9
    ensures Load(lines, parse) == Failure(InvalidKFormat) <==>
              ParseAll(AllTokens(lines), parse).Success? && |KTokens(lines)| < 9
    ensures Load(lines, parse).Failure? && Load(lines, parse).error.NotANumber? ==>
              Load(lines, parse).error == ParseAll(AllTokens(lines), parse).error
    ensures Load(lines, parse).Success? ==>
              forall i, j :: 0 <= i < 3 && 0 <= j < 3 ==>
                parse(KTokens(lines)[3 * i + j]) == Some(Load(lines, parse).value.k[i][j])
    ensures Load(lines, parse).Success? ==>
              (Load(lines, parse).value.baseline.None? <==> BaselineToken(lines).None?)
              && (BaselineToken(lines).Some? ==>
                    parse(BaselineToken(lines).value) == Some(Load(lines, parse).value.baseline.value))
  {
    ScanMeaning(lines, parse);
    var s := Scan(lines, parse);
    if s.Success? {
      var p := ParseAll(KTokens(lines), parse);
      assert |s.value.0| == |KTokens(lines)|;
      if |KTokens(lines)| >= 9 {
        var k := Load(lines, parse).value.k;
        forall i, j | 0 <= i < 3 && 0 <= j < 3
          ensures parse(KTokens(lines)[3 * i + j]) == Some(k[i][j])
        {
          assert k[i][j] == s.value.0[..9][3 * i + j];
        }
      }
    }
  }

  /** Scanning stops at the first error: what follows does not matter. */
  lemma {:induction false} ScanFailureSticks(lines: seq<string>, i: nat, parse: Parser)
    requires i <= |lines|
    requires Scan(lines[..i], parse).Failure?
    ensures Scan(lines, parse) == Scan(lines[..i], parse)
    decreases |lines| - i
  {
    if i < |lines| {
      assert lines[..i + 1][..i] == lines[..i];
      ScanFailureSticks(lines, i + 1, parse);
    } else {
      assert lines[..i] == lines;
    }
  }

  /** `load_K_and_baseline`, as the loop that builds `k_values` and `baseline`. */
  method LoadKAndBaseline(lines: seq<string>, parse: Parser) returns (r: Result<Params, LoadError>)
    ensures r == Load(lines, parse)
  {
    var kValues: seq<real> := [];
    var baseline: Option<real> := None;
    var i := 0;
    while i < |lines|
      invariant 0 <= i <= |lines|
      invariant Scan(lines[..i], parse) == Success((kValues, baseline))
    {
      var values := Split(lines[i]);
      assert lines[..i + 1][..i] == lines[..i];
      if |values| == 1 {
        var v := parse(values[0]);
        if v.None? {
          r := Failure(NotANumber(values[0]));
          ScanFailureSticks(lines, i + 1, parse);
          return;
        }
        baseline := Some(v.value);
      } else {
        var parsed := ParseAll(values, parse);
        if parsed.Failure? {
          r := Failure(parsed.error);
          ScanFailureSticks(lines, i + 1, parse);
          return;
        }
        kValues := kValues + parsed.value;
      }
      i := i + 1;
    }
    assert lines[..i] == lines;
    if |kValues| >= 9 {
      r := Success(Params(Reshape(kValues[..9]), baseline));
    } else {
      r := Failure(InvalidKFormat);
    }
  }

  // ---------------------------------------------------------------------
  // Saving
  // ---------------------------------------------------------------------

  /** Python's text for a float: `f"{v:.10f}"` for K, `f"{baseline}"` for the baseline. */
  type Formatter = real -> string

  /** `K.flatten()`: the rows one after the other. */
  function Flatten(k: Matrix): (v: seq<real>)
    ensures Is3x3(k) ==> |v| == 9 && forall i, j :: 0 <= i < 3 && 0 <= j < 3 ==> v[3 * i + j] == k[i][j]
  {
    if k == [] then []
    else
      var v := k[0] + Flatten(k[1..]);
      if Is3x3(k) then
        assert Flatten(k[1..]) == k[1] + Flatten(k[2..]);
        assert Flatten(k[2..]) == k[2] + Flatten(k[3..]);
        assert k[3..] == [];
        v
      else v
  }

  lemma ReshapeFlatten(k: Matrix)
    requires Is3x3(k)
    ensures Reshape(Flatten(k)) == k
  {
    var m := Reshape(Flatten(k));
    forall i | 0 <= i < 3
      ensures m[i] == k[i]
    {
      assert forall j :: 0 <= j < 3 ==> m[i][j] == k[i][j];
    }
  }

  function FormatAll(vs: seq<real>, format: Formatter): (ts: seq<string>)
    ensures |ts| == |vs| && forall i :: 0 <= i < |vs| ==> ts[i] == format(vs[i])
  {
    if vs == [] then [] else [format(vs[0])] + FormatAll(vs[1..], format)
  }

  /** The text `save_K_and_baseline` writes. */
  function SaveText(k: Matrix, baseline: Option<real>, fixed10: Formatter, show: Formatter): (text: string)
    ensures |text| > 0 && text[|text| - 1] == '\n'
  {
    Join(FormatAll(Flatten(k), fixed10)) + "\n"
    + match baseline
      case None => ""
      case Some(b) => show(b) + "\n"
  }

  /** The text saved splits into the line of K and, when there is a baseline, the baseline's line. */
  lemma SavedLines(k: Matrix, baseline: Option<real>, fixed10: Formatter, show: Formatter)
    requires forall v :: IsToken(fixed10(v))
    requires forall v :: IsToken(show(v))
    ensures ReadLines(SaveText(k, baseline, fixed10, show)) ==
            [Join(FormatAll(Flatten(k), fixed10)) + "\n"]
            + (if baseline.Some? then [show(baseline.value) + "\n"] else [])
  {
    var tokens := FormatAll(Flatten(k), fixed10);
    var first := Join(tokens);
    JoinedLine(tokens, fixed10, Flatten(k));
    var tail := match baseline case None => "" case Some(b) => show(b) + "\n";
    assert SaveText(k, baseline, fixed10, show) == first + "\n" + tail;
    ReadLinesCons(first, tail);
    if baseline.Some? {
      TokenLine(show(baseline.value));
    } else {
      assert ReadLines(tail) == [];
    }
  }

  /** A single word followed by `'\n'` reads back as one line. */
  lemma TokenLine(b: string)
    requires IsToken(b)
    ensures ReadLines(b + "\n") == [b + "\n"]
  {
    ReadLinesCons(b, "");
    assert b + "\n" + "" == b + "\n";
  }

  /** The formatted values joined by spaces hold no line break. */
  lemma JoinedLine(tokens: seq<string>, fixed10: Formatter, vs: seq<real>)
    requires forall v :: IsToken(fixed10(v))
    requires tokens == FormatAll(vs, fixed10)
    ensures forall i :: 0 <= i < |Join(tokens)| ==> Join(tokens)[i] != '\n'
  {
    forall i | 0 <= i < |tokens|
      ensures IsToken(tokens[i])
    {
      var v := vs[i];
      assert tokens[i] == fixed10(v);
      assert IsToken(fixed10(v));
    }
  }

  /**
   * What is saved reads back as one line holding the nine numbers of K,
   * followed by one line holding the baseline when there is one.
   */
  lemma SaveLayout(k: Matrix, baseline: Option<real>, fixed10: Formatter, show: Formatter)
    requires Is3x3(k)
    requires forall v :: IsToken(fixed10(v))
    requires forall v :: IsToken(show(v))
    ensures var lines := ReadLines(SaveText(k, baseline, fixed10, show));
            && |lines| == (if baseline.Some? then 2 else 1)
            && Split(lines[0]) == FormatAll(Flatten(k), fixed10)
            && |Split(lines[0])| == 9
            && (baseline.Some? ==> Split(lines[1]) == [show(baseline.value)])
  {
    SavedLines(k, baseline, fixed10, show);
    SplitJoin(FormatAll(Flatten(k), fixed10), "\n");
    if baseline.Some? {
      SplitJoin([show(baseline.value)], "\n");
    }
  }

  /**
   * Saving and loading again: K comes back as the values of its ten-decimal
   * texts, and a baseline that `float()` reads back exactly comes back
   * unchanged, or stays absent.
   */
  lemma SaveLoadRoundTrip(k: Matrix, baseline: Option<real>, fixed10: Formatter, show: Formatter, parse: Parser)
    requires Is3x3(k)
    requires forall v :: IsToken(fixed10(v)) && parse(fixed10(v)).Some?
    requires forall v :: IsToken(show(v))
    requires baseline.Some? ==> parse(show(baseline.value)) == baseline
    ensures var r := Load(ReadLines(SaveText(k, baseline, fixed10, show)), parse);
            && r.Success?
            && r.value.baseline == baseline
            && forall i, j :: 0 <= i < 3 && 0 <= j < 3 ==> parse(fixed10(k[i][j])) == Some(r.value.k[i][j])
  {
    var lines := ReadLines(SaveText(k, baseline, fixed10, show));
    SaveLayout(k, baseline, fixed10, show);
    var tokens := FormatAll(Flatten(k), fixed10);
    var l0 := lines[0];
    forall i | 0 <= i < |tokens|
      ensures parse(tokens[i]).Some?
    {
      var v := Flatten(k)[i];
      assert tokens[i] == fixed10(v);
      assert parse(fixed10(v)).Some?;
    }
    var vs := ParseAll(tokens, parse).value;
    assert Scan([l0], parse) == Success((vs, None)) by {
      assert [l0][..0] == [];
      assert [] + vs == vs;
    }
    if baseline.Some? {
      assert lines == [l0, lines[1]];
      assert lines[..1] == [l0];
      var b := show(baseline.value);
      assert IsToken(b);
      assert parse(b) == Some(baseline.value);
      assert Scan(lines, parse) == Success((vs, baseline));
    } else {
      assert lines == [l0];
    }
    var r := Load(lines, parse);
    assert vs[..9] == vs;
    forall i, j | 0 <= i < 3 && 0 <= j < 3
      ensures parse(fixed10(k[i][j])) == Some(r.value.k[i][j])
    {
      assert r.value.k[i][j] == vs[3 * i + j];
      assert tokens[3 * i + j] == fixed10(Flatten(k)[3 * i + j]);
    }
  }

  /** Where the ten-decimal texts of K's nine entries read back exactly, the whole file round-trips. */
  lemma SaveLoadExact(k: Matrix, baseline: Option<real>, fixed10: Formatter, show: Formatter, parse: Parser)
    requires Is3x3(k)
    requires forall v :: IsToken(fixed10(v)) && parse(fixed10(v)).Some?
    requires forall i, j :: 0 <= i < 3 && 0 <= j < 3 ==> parse(fixed10(k[i][j])) == Some(k[i][j])
    requires forall v :: IsToken(show(v))
    requires baseline.Some? ==> parse(show(baseline.value)) == baseline
    ensures Load(ReadLines(SaveText(k, baseline, fixed10, show)), parse) == Success(Params(k, baseline))
  {
    SaveLoadRoundTrip(k, baseline, fixed10, show, parse);
    var r := Load(ReadLines(SaveText(k, baseline, fixed10, show)), parse);
    var m := r.value.k;
    forall i | 0 <= i < 3
      ensures m[i] == k[i]
    {
      forall j | 0 <= j < 3
        ensures m[i][j] == k[i][j]
      {
        assert parse(fixed10(k[i][j])) == Some(k[i][j]);
        assert parse(fixed10(k[i][j])) == Some(m[i][j]);
      }
    }
    assert m == k;
  }
}
