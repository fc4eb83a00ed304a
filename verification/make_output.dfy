/**
 * The two build-output scanners of the remote utilities:
 * `parseMakePercentOutput` (every `NN%` value) and `parseMakeErrorOutput`
 * (`file:line:col: warning|error: message` records).
 *
 * Each JavaScript `while (match = regex.exec(output))` loop is a method; the
 * regular expression's `exec` is a function that finds the leftmost match at
 * or after `lastIndex`, written out from the meaning of the pattern. Each
 * method is proved equal to a declarative specification function, and the
 * properties of the scanners are lemmas about those functions.
 */
module MakeOutput {
  import opened Wrappers
  import opened Strings

  // =====================================================================
  // parseMakePercentOutput: /[0-9]+%/gm
  // =====================================================================

  /** The end of the run of digits starting at `i`: the first non-digit at or after `i`, or `|s|`. */
  function RunEnd(s: string, i: nat): (j: nat)
    requires i <= |s|
    decreases |s| - i
    ensures i <= j <= |s|
    ensures j < |s| ==> !IsDigit(s[j])
  {
    if i == |s| || !IsDigit(s[i]) then i else RunEnd(s, i + 1)
  }

  /** Everything from `i` up to the end of its run is a digit. */
  lemma {:induction false} RunEndDigits(s: string, i: nat)
    requires i <= |s|
    ensures AllDigits(s[i..RunEnd(s, i)])
    decreases |s| - i
  {
    if i < |s| && IsDigit(s[i]) {
      RunEndDigits(s, i + 1);
      assert s[i..RunEnd(s, i)] == [s[i]] + s[i + 1..RunEnd(s, i + 1)];
    }
  }

  /** The decimal value of the run of digits that starts at `i`. */
  function RunValue(s: string, i: nat): nat
    requires i <= |s|
  {
    RunEndDigits(s, i);
    DigitsValue(s[i..RunEnd(s, i)])
  }

  /**
   * `/[0-9]+%/` matches at `i`. The greedy `[0-9]+` first takes the whole
   * run of digits from `i`; giving digits back cannot help, since `%` is not
   * a digit, so a match exists exactly when the run is non-empty and is
   * followed by `%`. It covers `s[i..RunEnd(s, i) + 1]`.
   */
  predicate PercentAt(s: string, i: nat)
    requires i <= |s|
  {
    i < |s| && IsDigit(s[i]) && RunEnd(s, i) < |s| && s[RunEnd(s, i)] == '%'
  }

  /** The pattern matches at `i` exactly when some non-empty run of digits from `i` is followed by `%`. */
  lemma PercentAtMeaning(s: string, i: nat)
    requires i <= |s|
    ensures PercentAt(s, i) <==> exists j :: i < j < |s| && AllDigits(s[i..j]) && s[j] == '%'
  {
    RunEndDigits(s, i);
    if exists j :: i < j < |s| && AllDigits(s[i..j]) && s[j] == '%' {
      var j :| i < j < |s| && AllDigits(s[i..j]) && s[j] == '%';
      RunEndExactly(s, i, j);
    }
  }

  /** `regex.exec(s)` with `lastIndex == from`: the leftmost start of a match at or after `from`. */
  function ExecPercent(s: string, from: nat): (m: Option<nat>)
    requires from <= |s|
    decreases |s| - from
    ensures m.Some? ==> from <= m.value < |s| && PercentAt(s, m.value)
    ensures m.Some? ==> forall k :: from <= k < m.value ==> !PercentAt(s, k)
    ensures m.None? ==> forall k :: from <= k <= |s| ==> !PercentAt(s, k)
  {
    if from == |s| then None
    else if PercentAt(s, from) then Some(from)
    else ExecPercent(s, from + 1)
  }

  /**
   * Specification: scanning left to right from `i`, the decimal value of
   * every maximal run of digits that is immediately followed by `%`.
   */
  function PercentsFrom(s: string, i: nat): seq<nat>
    requires i <= |s|
    decreases |s| - i
  {
    if i == |s| then []
    else if !IsDigit(s[i]) then PercentsFrom(s, i + 1)
    else
      var j := RunEnd(s, i);
      if j < |s| && s[j] == '%' then [RunValue(s, i)] + PercentsFrom(s, j + 1)
      else PercentsFrom(s, j)
  }

  function Percentages(s: string): seq<nat> {
    PercentsFrom(s, 0)
  }

  /** `i` does not fall strictly inside a run of digits. */
  predicate NotInsideRun(s: string, i: nat)
    requires i <= |s|
  {
    i == 0 || i == |s| || !IsDigit(s[i - 1]) || !IsDigit(s[i])
  }

  /** Every position of a run of digits sees the same end of run. */
  lemma {:induction false} RunEndInside(s: string, i: nat, k: nat)
    requires i <= |s| && i <= k <= RunEnd(s, i)
    ensures RunEnd(s, k) == RunEnd(s, i)
    decreases k - i
  {
    if i < k {
      RunEndInside(s, i + 1, k);
    }
  }

  /**
   * One `exec` from a position outside a run either finds nothing, when the
   * specification has nothing left, or finds the match whose value the
   * specification lists next, resuming after it.
   */
  lemma {:induction false} ExecPercentAgrees(s: string, from: nat)
    requires from <= |s| && NotInsideRun(s, from)
    ensures match ExecPercent(s, from)
      case None => PercentsFrom(s, from) == []
      case Some(m) => PercentsFrom(s, from) == [RunValue(s, m)] + PercentsFrom(s, RunEnd(s, m) + 1)
    decreases |s| - from
  {
    if from < |s| && !PercentAt(s, from) {
      if !IsDigit(s[from]) {
        assert ExecPercent(s, from) == ExecPercent(s, from + 1);
        assert PercentsFrom(s, from) == PercentsFrom(s, from + 1);
        ExecPercentAgrees(s, from + 1);
      } else {
        SkipRun(s, from);
        ExecPercentAgrees(s, RunEnd(s, from));
      }
    }
  }

  /** A run of digits not followed by `%` is passed over by both `exec` and the specification. */
  lemma SkipRun(s: string, from: nat)
    requires from < |s| && IsDigit(s[from]) && !PercentAt(s, from)
    ensures var j := RunEnd(s, from);
      NotInsideRun(s, j) && ExecPercent(s, from) == ExecPercent(s, j) &&
      PercentsFrom(s, from) == PercentsFrom(s, j)
  {
    var j := RunEnd(s, from);
    forall k | from <= k < j ensures !PercentAt(s, k) {
      RunEndInside(s, from, k);
    }
    ExecPercentSkip(s, from, j);
  }

  lemma {:induction false} ExecPercentSkip(s: string, from: nat, j: nat)
    requires from <= j <= |s|
    requires forall k :: from <= k < j ==> !PercentAt(s, k)
    ensures ExecPercent(s, from) == ExecPercent(s, j)
    decreases j - from
  {
    if from < j {
      ExecPercentSkip(s, from + 1, j);
    }
  }

  /** Text without a `%` sign yields no values. */
  lemma NoPercentSignNoValues(s: string)
    requires '%' !in s
    ensures Percentages(s) == []
  {
    PercentsWithoutSign(s, 0);
  }

  lemma {:induction false} PercentsWithoutSign(s: string, i: nat)
    requires i <= |s|
    requires forall k :: i <= k < |s| ==> s[k] != '%'
    ensures PercentsFrom(s, i) == []
    decreases |s| - i
  {
    if i < |s| {
      if IsDigit(s[i]) {
        PercentsWithoutSign(s, RunEnd(s, i));
      } else {
        PercentsWithoutSign(s, i + 1);
      }
    }
  }

  /** Each value consumes its own `%` sign: there are at most as many values as `%` signs. */
  lemma AtMostOneValuePerSign(s: string)
    ensures |Percentages(s)| <= CountChar(s, '%')
  {
    assert s[0..] == s;
    PercentsCount(s, 0);
  }

  lemma {:induction false} PercentsCount(s: string, i: nat)
    requires i <= |s|
    ensures |PercentsFrom(s, i)| <= CountChar(s[i..], '%')
    decreases |s| - i
  {
    if i < |s| {
      if !IsDigit(s[i]) {
        CountCharStep(s, i, '%');
        PercentsCount(s, i + 1);
        assert PercentsFrom(s, i) == PercentsFrom(s, i + 1);
      } else {
        var j := RunEnd(s, i);
        CountCharMonotone(s, i, j, '%');
        if j < |s| && s[j] == '%' {
          CountCharStep(s, j, '%');
          PercentsCount(s, j + 1);
          assert PercentsFrom(s, i) == [RunValue(s, i)] + PercentsFrom(s, j + 1);
        } else {
          PercentsCount(s, j);
          assert PercentsFrom(s, i) == PercentsFrom(s, j);
        }
      }
    }
  }

  lemma CountCharStep(s: string, i: nat, c: char)
    requires i < |s|
    ensures CountChar(s[i..], c) == (if s[i] == c then 1 else 0) + CountChar(s[i + 1..], c)
  {
    assert s[i..][1..] == s[i + 1..];
  }

  lemma {:induction false} CountCharMonotone(s: string, i: nat, j: nat, c: char)
    requires i <= j <= |s|
    ensures CountChar(s[j..], c) <= CountChar(s[i..], c)
    decreases j - i
  {
    if i < j {
      CountCharStep(s, i, c);
      CountCharMonotone(s, i + 1, j, c);
    }
  }

  /**
   * Scanning distributes over concatenation when the left part does not end
   * inside a run of digits: values come out in order of appearance and
   * repeated values are all kept.
   */
  lemma PercentagesAppend(a: string, b: string)
    requires |a| == 0 || !IsDigit(a[|a| - 1])
    ensures Percentages(a + b) == Percentages(a) + Percentages(b)
  {
    if |a| == 0 {
      assert a + b == b;
    } else {
      PercentsAppend(a, b, 0);
    }
  }

  lemma {:induction false} PercentsAppend(a: string, b: string, i: nat)
    requires 0 < |a| && !IsDigit(a[|a| - 1]) && i <= |a|
    ensures PercentsFrom(a + b, i) == PercentsFrom(a, i) + PercentsFrom(b, 0)
    decreases |a| - i
  {
    var s := a + b;
    if i == |a| {
      assert SuffixAt(a + b, |a|, b);
      PercentsShift(a + b, |a|, b, 0);
    } else if !IsDigit(a[i]) {
      assert s[i] == a[i];
      PercentsAppend(a, b, i + 1);
    } else {
      RunValueAppend(a, b, i);
      var j := RunEnd(a, i);
      assert s[j] == a[j];
      if a[j] == '%' {
        PercentsAppend(a, b, j + 1);
        calc {
          PercentsFrom(s, i);
          [RunValue(a, i)] + PercentsFrom(s, j + 1);
          [RunValue(a, i)] + (PercentsFrom(a, j + 1) + PercentsFrom(b, 0));
          ([RunValue(a, i)] + PercentsFrom(a, j + 1)) + PercentsFrom(b, 0);
          PercentsFrom(a, i) + PercentsFrom(b, 0);
        }
      } else {
        PercentsAppend(a, b, j);
        calc {
          PercentsFrom(s, i);
          PercentsFrom(s, j);
          PercentsFrom(a, j) + PercentsFrom(b, 0);
          PercentsFrom(a, i) + PercentsFrom(b, 0);
        }
      }
    }
  }

  lemma RunValueAppend(a: string, b: string, i: nat)
    requires 0 < |a| && !IsDigit(a[|a| - 1]) && i < |a|
    ensures RunEnd(a + b, i) == RunEnd(a, i) < |a|
    ensures RunValue(a + b, i) == RunValue(a, i)
  {
    RunEndAppend(a, b, i);
    var j := RunEnd(a, i);
    assert (a + b)[i..j] == a[i..j];
  }

  lemma {:induction false} RunEndAppend(a: string, b: string, i: nat)
    requires 0 < |a| && !IsDigit(a[|a| - 1]) && i < |a|
    ensures RunEnd(a + b, i) == RunEnd(a, i) < |a|
    decreases |a| - i
  {
    if IsDigit(a[i]) {
      RunEndAppend(a, b, i + 1);
    }
  }

  /** `b` is what `s` holds from index `d` on. */
  predicate SuffixAt(s: string, d: nat, b: string) {
    d + |b| == |s| && forall i :: 0 <= i < |b| ==> s[d + i] == b[i]
  }

  lemma {:induction false} RunEndShift(s: string, d: nat, b: string, k: nat)
    requires SuffixAt(s, d, b) && k <= |b|
    ensures RunEnd(s, d + k) == d + RunEnd(b, k)
    decreases |b| - k
  {
    if k < |b| {
      assert s[d + k] == b[k];
      if IsDigit(b[k]) {
        RunEndShift(s, d, b, k + 1);
      }
    }
  }

  lemma RunValueShift(s: string, d: nat, b: string, k: nat)
    requires SuffixAt(s, d, b) && k <= |b|
    ensures RunEnd(s, d + k) == d + RunEnd(b, k)
    ensures RunValue(s, d + k) == RunValue(b, k)
  {
    RunEndShift(s, d, b, k);
    var j := RunEnd(b, k);
    assert s[d + k..d + j] == b[k..j];
  }

  lemma {:induction false} PercentsShift(s: string, d: nat, b: string, k: nat)
    requires SuffixAt(s, d, b) && k <= |b|
    ensures PercentsFrom(s, d + k) == PercentsFrom(b, k)
    decreases |b| - k
  {
    if k < |b| {
      if !IsDigit(b[k]) {
        PercentsShift(s, d, b, k + 1);
        ShiftStepOther(s, d, b, k);
      } else {
        var j := RunEnd(b, k);
        if j < |b| && b[j] == '%' {
          PercentsShift(s, d, b, j + 1);
        } else {
          PercentsShift(s, d, b, j);
        }
        ShiftStepRun(s, d, b, k);
      }
    }
  }

  lemma ShiftStepOther(s: string, d: nat, b: string, k: nat)
    requires SuffixAt(s, d, b) && k < |b| && !IsDigit(b[k])
    requires PercentsFrom(s, d + k + 1) == PercentsFrom(b, k + 1)
    ensures PercentsFrom(s, d + k) == PercentsFrom(b, k)
  {
    assert s[d + k] == b[k];
  }

  lemma ShiftStepRun(s: string, d: nat, b: string, k: nat)
    requires SuffixAt(s, d, b) && k < |b| && IsDigit(b[k])
    requires var j := RunEnd(b, k);
      if j < |b| && b[j] == '%' then PercentsFrom(s, d + j + 1) == PercentsFrom(b, j + 1)
      else PercentsFrom(s, d + j) == PercentsFrom(b, j)
    ensures PercentsFrom(s, d + k) == PercentsFrom(b, k)
  {
    assert s[d + k] == b[k];
    RunValueShift(s, d, b, k);
    var j := RunEnd(b, k);
    if j < |b| {
      assert s[d + j] == b[j];
    }
  }

  /** A run of digits followed by `%` yields exactly its decimal value. */
  lemma PercentToken(d: string)
    requires 0 < |d| && AllDigits(d)
    ensures Percentages(d + "%") == [DigitsValue(d)]
  {
    var s := d + "%";
    RunEndOfDigits(d, 0);
    assert s[0] == d[0] && IsDigit(s[0]);
    assert s[|d|] == '%';
    assert s[0..|d|] == d;
    assert PercentsFrom(s, |d| + 1) == [];
    assert PercentsFrom(s, 0) == [DigitsValue(d)] + PercentsFrom(s, |d| + 1);
  }

  lemma {:induction false} RunEndOfDigits(d: string, i: nat)
    requires AllDigits(d) && i <= |d|
    ensures RunEnd(d + "%", i) == |d|
    decreases |d| - i
  {
    if i < |d| {
      RunEndOfDigits(d, i + 1);
    }
  }

  /** The progress lines of a build, `building... 10% done` and `linking 55%`, read as 10 and 55. */
  lemma PercentExample()
    ensures Percentages("building... " + "10%" + " done\nlinking " + "55%" + "\n") == [10, 55]
  {
    var a, b, c, d, e := "building... ", "10%", " done\nlinking ", "55%", "\n";
    PercentagesAppend(a + b + c + d, e);
    PercentagesAppend(a + b + c, d);
    PercentagesAppend(a + b, c);
    PercentagesAppend(a, b);
    NoPercentSignNoValues(a);
    NoPercentSignNoValues(c);
    NoPercentSignNoValues(e);
    PercentTen();
    PercentFiftyFive();
  }

  lemma PercentTen()
    ensures Percentages("10%") == [10]
  {
    assert "10" + "%" == "10%";
    PercentToken("10");
    assert "10"[..1] == "1" && "1"[..0] == "";
  }

  lemma PercentFiftyFive()
    ensures Percentages("55%") == [55]
  {
    assert "55" + "%" == "55%";
    PercentToken("55");
    assert "55"[..1] == "5" && "5"[..0] == "";
  }

  /**
   * `parseMakePercentOutput(output)`: repeatedly `exec` the pattern and push
   * `parseInt` of the matched text without its `%`.
   */
  method ParseMakePercentOutput(output: string) returns (retVals: seq<nat>)
    ensures retVals == Percentages(output)
  {
    retVals := [];
    var lastIndex := 0;
    while true
      invariant lastIndex <= |output| && NotInsideRun(output, lastIndex)
      invariant retVals + PercentsFrom(output, lastIndex) == Percentages(output)
      decreases |output| - lastIndex
    {
      ExecPercentAgrees(output, lastIndex);
      var found := ExecPercent(output, lastIndex);
      if found.None? {
        return;
      }
      var start := found.value;
      var stop := RunEnd(output, start) + 1;
      retVals := retVals + [RunValue(output, start)];
      lastIndex := stop;
    }
  }

  // =====================================================================
  // parseMakeErrorOutput: /^(.*):([0-9]+):[0-9]+: (warning|error): (.*)$/gm
  // =====================================================================

  /** The captures of one match: the three groups the source reads, plus the unnamed column digits. */
  datatype LineMatch = LineMatch(
    fileName: string, lineDigits: string, colDigits: string, kind: string, text: string)

  /** One record pushed by `parseMakeErrorOutput`. */
  datatype Diagnostic = Diagnostic(fileName: string, line: nat, kind: string, text: string)

  /** `fileName + ":" + line + ":" + col + ": " + type + ": " + text`. */
  function Reassemble(m: LineMatch): string {
    m.fileName + ":" + m.lineDigits + ":" + m.colDigits + ": " + m.kind + ": " + m.text
  }

  /** Captures the pattern can produce: non-empty digit runs and one of the two severities. */
  predicate WellFormed(m: LineMatch) {
    0 < |m.lineDigits| && AllDigits(m.lineDigits) &&
    0 < |m.colDigits| && AllDigits(m.colDigits) &&
    (m.kind == "warning" || m.kind == "error")
  }

  /**
   * The record pushed for a match: the file name, severity and message
   * captures as they are, and the line digits read by `parseInt`; the
   * column is not kept.
   */
  function ToRecord(m: LineMatch): (r: Diagnostic)
    requires WellFormed(m)
    ensures r.fileName == m.fileName && r.text == m.text
    ensures r.kind == m.kind && (r.kind == "warning" || r.kind == "error")
    ensures r.line == DigitsValue(m.lineDigits) && r.line < Pow10(|m.lineDigits|)
  {
    Diagnostic(m.fileName, DigitsValue(m.lineDigits), m.kind, m.text)
  }

  /** A `:` at index `i`. */
  predicate ColonAt(s: string, i: nat) {
    i < |s| && s[i] == ':'
  }

  /** `: ` at index `i`. */
  predicate ColonSpaceAt(s: string, i: nat) {
    i + 1 < |s| && s[i] == ':' && s[i + 1] == ' '
  }

  /**
   * What the rest of the pattern makes of a line when the first group `(.*)`
   * takes its first `f` characters. Each `[0-9]+` must stop where the run of
   * digits stops, because the character the pattern needs next is not a
   * digit. `(warning|error)` tries `warning` first and falls back to
   * `error` (at most one of them can fit), and the final `(.*)$` takes the
   * rest of the line.
   */
  function TailAt(L: string, f: nat): (r: Option<LineMatch>)
    requires f <= |L|
  {
    if !ColonAt(L, f) then None
    else
      var b := RunEnd(L, f + 1);
      if b == f + 1 || !ColonAt(L, b) then None
      else
        var c := RunEnd(L, b + 1);
        if c == b + 1 || !ColonSpaceAt(L, c) then None
        else
          if OccursAt(L, "warning", c + 2) && ColonSpaceAt(L, c + 9) then
            Some(LineMatch(L[..f], L[f + 1..b], L[b + 1..c], "warning", L[c + 11..]))
          else if OccursAt(L, "error", c + 2) && ColonSpaceAt(L, c + 7) then
            Some(LineMatch(L[..f], L[f + 1..b], L[b + 1..c], "error", L[c + 9..]))
          else None
  }

  /** Cutting a line at the separators and gluing the pieces back gives the line. */
  lemma SplitReassembles(L: string, f: nat, b: nat, c: nat, kind: string)
    requires f < b < c
    requires ColonAt(L, f) && ColonAt(L, b) && ColonSpaceAt(L, c)
    requires OccursAt(L, kind, c + 2) && ColonSpaceAt(L, c + 2 + |kind|)
    ensures Reassemble(LineMatch(L[..f], L[f + 1..b], L[b + 1..c], kind, L[c + 4 + |kind|..])) == L
  {
    var k := |kind|;
    assert L[..f + 1] == L[..f] + ":";
    assert L[..b] == L[..f + 1] + L[f + 1..b];
    assert L[..b + 1] == L[..b] + ":";
    assert L[..c] == L[..b + 1] + L[b + 1..c];
    assert L[..c + 2] == L[..c] + ": ";
    assert L[..c + 2 + k] == L[..c + 2] + kind;
    assert L[..c + 4 + k] == L[..c + 2 + k] + ": ";
    assert L == L[..c + 4 + k] + L[c + 4 + k..];
  }

  /** The captures `TailAt` returns are ones the pattern can produce. */
  lemma TailAtWellFormed(L: string, f: nat)
    requires f <= |L|
    ensures TailAt(L, f).Some? ==> WellFormed(TailAt(L, f).value)
  {
    if TailAt(L, f).Some? {
      var b := RunEnd(L, f + 1);
      var c := RunEnd(L, b + 1);
      var m := TailAt(L, f).value;
      assert m.lineDigits == L[f + 1..b] && m.colDigits == L[b + 1..c];
      RunEndDigits(L, f + 1);
      RunEndDigits(L, b + 1);
    }
  }

  /** The captures `TailAt` returns reassemble the line they were taken from. */
  lemma TailAtReassembles(L: string, f: nat)
    requires f <= |L|
    ensures TailAt(L, f).Some? ==> Reassemble(TailAt(L, f).value) == L
  {
    if TailAt(L, f).Some? {
      var b := RunEnd(L, f + 1);
      var c := RunEnd(L, b + 1);
      var kind := TailAt(L, f).value.kind;
      assert TailAt(L, f).value == LineMatch(L[..f], L[f + 1..b], L[b + 1..c], kind, L[c + 4 + |kind|..]);
      SplitReassembles(L, f, b, c, kind);
    }
  }

  /** The file name `TailAt` captures is the first `f` characters. */
  lemma TailAtLength(L: string, f: nat)
    requires f <= |L|
    ensures TailAt(L, f).Some? ==> TailAt(L, f).value.fileName == L[..f]
  {
  }

  lemma TailAtSound(L: string, f: nat)
    requires f <= |L|
    ensures TailAt(L, f).Some? ==>
      var m := TailAt(L, f).value;
      WellFormed(m) && Reassemble(m) == L && |m.fileName| == f
  {
    TailAtWellFormed(L, f);
    TailAtReassembles(L, f);
    TailAtLength(L, f);
  }

  /** Backtracking of the greedy first group: try `f`, `f - 1`, ..., `0` characters. */
  function MatchFrom(L: string, f: nat): Option<LineMatch>
    requires f <= |L|
  {
    match TailAt(L, f)
    case Some(m) => Some(m)
    case None => if f == 0 then None else MatchFrom(L, f - 1)
  }

  lemma {:induction false} MatchFromNone(L: string, f: nat)
    requires f <= |L|
    ensures MatchFrom(L, f).None? ==> forall g: nat :: g <= f ==> TailAt(L, g).None?
  {
    if TailAt(L, f).None? && f > 0 {
      MatchFromNone(L, f - 1);
    }
  }

  lemma {:induction false} MatchFromSome(L: string, f: nat)
    requires f <= |L|
    ensures MatchFrom(L, f).Some? ==>
      var g := |MatchFrom(L, f).value.fileName|;
      g <= f && TailAt(L, g) == MatchFrom(L, f)
  {
    TailAtLength(L, f);
    if TailAt(L, f).None? && f > 0 {
      MatchFromSome(L, f - 1);
    }
  }

  lemma {:induction false} MatchFromSkips(L: string, f: nat)
    requires f <= |L|
    ensures MatchFrom(L, f).Some? ==>
      forall h: nat :: |MatchFrom(L, f).value.fileName| < h <= f ==> TailAt(L, h).None?
  {
    TailAtLength(L, f);
    if TailAt(L, f).None? && f > 0 {
      MatchFromSkips(L, f - 1);
    }
  }

  lemma MatchFromSound(L: string, f: nat)
    requires f <= |L|
    ensures MatchFrom(L, f).Some? ==>
      WellFormed(MatchFrom(L, f).value) && Reassemble(MatchFrom(L, f).value) == L
  {
    MatchFromSome(L, f);
    if MatchFrom(L, f).Some? {
      TailAtSound(L, |MatchFrom(L, f).value.fileName|);
    }
  }

  /** The match of the whole line, if any: its captures reassemble the line. */
  function MatchLine(L: string): (r: Option<LineMatch>)
    ensures r.Some? ==> WellFormed(r.value) && Reassemble(r.value) == L
  {
    MatchFromSound(L, |L|);
    MatchFrom(L, |L|)
  }

  /**
   * Greedy `(.*)`: the file name of a match is the longest prefix for which
   * the rest of the pattern still matches, and there is no match only when
   * no prefix works.
   */
  lemma MatchLineLongest(L: string)
    ensures MatchLine(L).Some? ==>
      TailAt(L, |MatchLine(L).value.fileName|) == MatchLine(L) &&
      forall f: nat :: |MatchLine(L).value.fileName| < f <= |L| ==> TailAt(L, f).None?
    ensures MatchLine(L).None? ==> forall f: nat :: f <= |L| ==> TailAt(L, f).None?
  {
    MatchFromSome(L, |L|);
    MatchFromSkips(L, |L|);
    MatchFromNone(L, |L|);
  }

  lemma {:induction false} RunEndExactly(s: string, i: nat, j: nat)
    requires i <= j < |s| && AllDigits(s[i..j]) && !IsDigit(s[j])
    ensures RunEnd(s, i) == j
    decreases j - i
  {
    if i < j {
      assert s[i..j][0] == s[i];
      assert s[i + 1..j] == s[i..j][1..];
      RunEndExactly(s, i + 1, j);
    }
  }

  /** Where each capture and separator sits in a reassembled line. */
  predicate Layout(L: string, m: LineMatch) {
    var f, b, c := |m.fileName|, |m.fileName| + 1 + |m.lineDigits|, |m.fileName| + 2 + |m.lineDigits| + |m.colDigits|;
    |L| == c + 4 + |m.kind| + |m.text| &&
    RunEnd(L, f + 1) == b && RunEnd(L, b + 1) == c &&
    L[..f] == m.fileName && L[f + 1..b] == m.lineDigits && L[b + 1..c] == m.colDigits &&
    L[c + 4 + |m.kind|..] == m.text &&
    ColonAt(L, f) && ColonAt(L, b) && ColonSpaceAt(L, c) &&
    OccursAt(L, m.kind, c + 2) && ColonSpaceAt(L, c + 2 + |m.kind|)
  }

  /** Where each capture of `m` sits in `L` when `L` is `m` reassembled. */
  predicate Pieces(L: string, m: LineMatch) {
    var f, n1, n2, k := |m.fileName|, |m.lineDigits|, |m.colDigits|, |m.kind|;
    var b, c := f + 1 + n1, f + 2 + n1 + n2;
    |L| == c + 4 + k + |m.text| &&
    L[..f] == m.fileName && L[f] == ':' &&
    L[f + 1..b] == m.lineDigits && L[b] == ':' &&
    L[b + 1..c] == m.colDigits && ColonSpaceAt(L, c) &&
    L[c + 2..c + 2 + k] == m.kind && ColonSpaceAt(L, c + 2 + k) &&
    L[c + 4 + k..] == m.text
  }

  lemma ReassembleSlices(m: LineMatch)
    ensures Pieces(Reassemble(m), m)
  {
    var head := m.fileName + ":" + m.lineDigits + ":" + m.colDigits;
    var L := Reassemble(m);
    assert L == head + ": " + m.kind + ": " + m.text;
    HeadSlices(m.fileName, m.lineDigits, m.colDigits);
    TailSlices(head, m.kind, m.text);
    var f, b, c := |m.fileName|, |m.fileName| + 1 + |m.lineDigits|, |head|;
    assert L[..f] == head[..f];
    assert L[f + 1..b] == head[f + 1..b];
    assert L[b + 1..c] == head[b + 1..];
  }

  lemma HeadSlices(file: string, line: string, col: string)
    ensures var H, f, b := file + ":" + line + ":" + col, |file|, |file| + 1 + |line|;
      |H| == b + 1 + |col| &&
      H[..f] == file && H[f] == ':' && H[f + 1..b] == line && H[b] == ':' && H[b + 1..] == col
  {
    var H, f, b := file + ":" + line + ":" + col, |file|, |file| + 1 + |line|;
    assert H[..f] == file;
    assert H[f + 1..b] == line;
    assert H[b + 1..] == col;
  }

  lemma TailSlices(head: string, kind: string, text: string)
    ensures var L, c, k := head + ": " + kind + ": " + text, |head|, |kind|;
      |L| == c + 4 + k + |text| && L[..c] == head &&
      ColonSpaceAt(L, c) && L[c + 2..c + 2 + k] == kind && ColonSpaceAt(L, c + 2 + k) &&
      L[c + 4 + k..] == text
  {
    var L, c, k := head + ": " + kind + ": " + text, |head|, |kind|;
    assert L[..c] == head;
    assert L[c + 2..c + 2 + k] == kind;
    assert L[c + 4 + k..] == text;
  }

  lemma ReassembledLayout(m: LineMatch)
    requires WellFormed(m)
    ensures Layout(Reassemble(m), m)
  {
    ReassembleSlices(m);
    LayoutOfPieces(Reassemble(m), m);
  }

  lemma LayoutOfPieces(L: string, m: LineMatch)
    requires WellFormed(m) && Pieces(L, m)
    ensures Layout(L, m)
  {
    var f := |m.fileName|;
    var b, c := f + 1 + |m.lineDigits|, f + 2 + |m.lineDigits| + |m.colDigits|;
    RunEndAtColon(L, f + 1, b, m.lineDigits);
    RunEndAtColon(L, b + 1, c, m.colDigits);
  }

  lemma RunEndAtColon(L: string, i: nat, j: nat, d: string)
    requires i <= j < |L| && L[i..j] == d && AllDigits(d) && L[j] == ':'
    ensures RunEnd(L, i) == j
  {
    RunEndExactly(L, i, j);
  }

  /** The conditions under which `TailAt` succeeds, with the captures it then returns. */
  lemma TailAtSucceeds(L: string, f: nat, b: nat, c: nat, kind: string)
    requires f < b < c <= |L| && RunEnd(L, f + 1) == b && RunEnd(L, b + 1) == c
    requires f + 1 < b && b + 1 < c
    requires ColonAt(L, f) && ColonAt(L, b) && ColonSpaceAt(L, c)
    requires kind == "warning" || kind == "error"
    requires OccursAt(L, kind, c + 2) && ColonSpaceAt(L, c + 2 + |kind|)
    ensures TailAt(L, f) == Some(LineMatch(L[..f], L[f + 1..b], L[b + 1..c], kind, L[c + 4 + |kind|..]))
  {
    if kind == "error" {
      assert !OccursAt(L, "warning", c + 2) by {
        assert L[c + 2] == L[c + 2..c + 7][0] == 'e';
      }
    }
  }

  lemma TailAtFinds(L: string, m: LineMatch)
    requires WellFormed(m)
    requires Layout(L, m)
    ensures TailAt(L, |m.fileName|) == Some(m)
  {
    var f, b, c := |m.fileName|, |m.fileName| + 1 + |m.lineDigits|, |m.fileName| + 2 + |m.lineDigits| + |m.colDigits|;
    TailAtSucceeds(L, f, b, c, m.kind);
    assert LineMatch(L[..f], L[f + 1..b], L[b + 1..c], m.kind, L[c + 4 + |m.kind|..]) == m;
  }

  /** Reading back a reassembled record with the file name's length finds exactly that record. */
  lemma TailAtReassemble(m: LineMatch)
    requires WellFormed(m)
    ensures TailAt(Reassemble(m), |m.fileName|) == Some(m)
  {
    ReassembledLayout(m);
    TailAtFinds(Reassemble(m), m);
  }

  /**
   * Backtracking stops at the first success: when every longer prefix
   * fails and `f` succeeds, the search from any `g >= f` returns what `f`
   * gives.
   */
  lemma {:induction false} MatchFromStopsAt(L: string, f: nat, g: nat)
    requires f <= g <= |L| && TailAt(L, f).Some?
    requires forall h: nat :: f < h <= g ==> TailAt(L, h).None?
    ensures MatchFrom(L, g) == TailAt(L, f)
    decreases g
  {
    if f < g {
      assert TailAt(L, g).None?;
      assert MatchFrom(L, g) == MatchFrom(L, g - 1);
      MatchFromStopsAt(L, f, g - 1);
    }
  }

  /** After the file name, a reassembled line has colons only at its separators when the text has none. */
  lemma ColonsOfReassembled(m: LineMatch)
    requires WellFormed(m) && ':' !in m.text
    ensures var L, f, k := Reassemble(m), |m.fileName|, |m.kind|;
      var b, c := f + 1 + |m.lineDigits|, f + 2 + |m.lineDigits| + |m.colDigits|;
      forall h :: f < h < |L| && h != b && h != c && h != c + 2 + k ==> L[h] != ':'
  {
    ReassembleSlices(m);
    ColonsOfPieces(Reassemble(m), m);
  }

  lemma ColonsOfPieces(L: string, m: LineMatch)
    requires WellFormed(m) && ':' !in m.text && Pieces(L, m)
    ensures var f, k := |m.fileName|, |m.kind|;
      var b, c := f + 1 + |m.lineDigits|, f + 2 + |m.lineDigits| + |m.colDigits|;
      forall h :: f < h < |L| && h != b && h != c && h != c + 2 + k ==> L[h] != ':'
  {
    var f, k := |m.fileName|, |m.kind|;
    var b, c := f + 1 + |m.lineDigits|, f + 2 + |m.lineDigits| + |m.colDigits|;
    DigitsHaveNoColon(m.lineDigits);
    DigitsHaveNoColon(m.colDigits);
    KindHasNoColon(m.kind);
    NoColonWithin(L, f + 1, b, m.lineDigits);
    NoColonWithin(L, b + 1, c, m.colDigits);
    NoColonWithin(L, c + 2, c + 2 + k, m.kind);
    NoColonWithin(L, c + 4 + k, |L|, m.text);
    ColonsCombine(L, f, b, c, k);
  }

  lemma ColonsCombine(L: string, f: nat, b: nat, c: nat, k: nat)
    requires f < b < c && c + 4 + k <= |L| && L[c + 1] == ' ' && L[c + 3 + k] == ' '
    requires forall h :: f + 1 <= h < b ==> L[h] != ':'
    requires forall h :: b + 1 <= h < c ==> L[h] != ':'
    requires forall h :: c + 2 <= h < c + 2 + k ==> L[h] != ':'
    requires forall h :: c + 4 + k <= h < |L| ==> L[h] != ':'
    ensures forall h :: f < h < |L| && h != b && h != c && h != c + 2 + k ==> L[h] != ':'
  {
    forall h | f < h < |L| && h != b && h != c && h != c + 2 + k ensures L[h] != ':' {
      if h < b {
      } else if h < c {
      } else if h == c + 1 {
      } else if h < c + 2 + k {
      } else if h == c + 3 + k {
      } else {
      }
    }
  }

  lemma DigitsHaveNoColon(d: string)
    requires AllDigits(d)
    ensures ':' !in d
  {
    forall i | 0 <= i < |d| ensures d[i] != ':' {
      assert IsDigit(d[i]);
    }
  }

  lemma KindHasNoColon(kind: string)
    requires kind == "warning" || kind == "error"
    ensures ':' !in kind
  {
  }

  lemma NoColonWithin(L: string, i: nat, j: nat, d: string)
    requires i <= j <= |L| && L[i..j] == d && ':' !in d
    ensures forall h :: i <= h < j ==> L[h] != ':'
  {
    forall h | i <= h < j ensures L[h] != ':' {
      assert L[h] == d[h - i];
    }
  }

  /** No longer prefix than the file name lets the rest of the pattern match a reassembled line. */
  lemma NoLongerFileName(m: LineMatch, h: nat)
    requires WellFormed(m) && ':' !in m.text
    requires |m.fileName| < h <= |Reassemble(m)|
    ensures TailAt(Reassemble(m), h).None?
  {
    var L := Reassemble(m);
    ReassembledLayout(m);
    var f, k := |m.fileName|, |m.kind|;
    var b, c := f + 1 + |m.lineDigits|, f + 2 + |m.lineDigits| + |m.colDigits|;
    ColonsOfReassembled(m);
    if ColonAt(L, h) {
      assert L[c + 1] == ' ' && L[c + 3 + k] == ' ';
      if h == b {
        assert RunEnd(L, c + 1) == c + 1;
      } else {
        assert RunEnd(L, h + 1) == h + 1;
      }
    }
  }

  /**
   * Round trip: a record whose message has no colon is read back from its
   * own line exactly, file name included.
   */
  lemma MatchLineReassemble(m: LineMatch)
    requires WellFormed(m) && ':' !in m.text
    ensures MatchLine(Reassemble(m)) == Some(m)
  {
    var L := Reassemble(m);
    TailAtReassemble(m);
    forall h: nat | |m.fileName| < h <= |L|
      ensures TailAt(L, h).None?
    {
      NoLongerFileName(m, h);
    }
    MatchFromStopsAt(L, |m.fileName|, |L|);
  }

  /** A line matches the pattern exactly when it is the reassembly of some well-formed captures. */
  lemma MatchLineComplete(L: string)
    ensures MatchLine(L).Some? <==> exists m :: WellFormed(m) && Reassemble(m) == L
  {
    if exists m :: WellFormed(m) && Reassemble(m) == L {
      var m :| WellFormed(m) && Reassemble(m) == L;
      TailAtReassemble(m);
      MatchFromNone(L, |L|);
    }
  }

  // ---------------------------------------------------------------------
  // Lines: `^` and `$` under the `m` flag, `.` stopping at line terminators
  // ---------------------------------------------------------------------

  /** The first line terminator at or after `i`, or `|s|`. */
  function LineEnd(s: string, i: nat): (e: nat)
    requires i <= |s|
    decreases |s| - i
    ensures i <= e <= |s|
    ensures e < |s| ==> IsLineTerminator(s[e])
  {
    if i == |s| || IsLineTerminator(s[i]) then i else LineEnd(s, i + 1)
  }

  /** No line terminator lies between `i` and the end of its line. */
  lemma {:induction false} LineEndNoTerminator(s: string, i: nat, k: nat)
    requires i <= |s| && i <= k < LineEnd(s, i)
    ensures !IsLineTerminator(s[k])
    decreases k - i
  {
    if i < k {
      LineEndNoTerminator(s, i + 1, k);
    }
  }

  /** `^` under the `m` flag holds at `p`. */
  predicate LineStart(s: string, p: nat)
    requires p <= |s|
  {
    p == 0 || IsLineTerminator(s[p - 1])
  }

  /** The lines of `s` from the line that starts at `i` on. */
  function LinesFrom(s: string, i: nat): (r: seq<string>)
    requires i <= |s|
    decreases |s| - i
    ensures 0 < |r|
  {
    var e := LineEnd(s, i);
    [s[i..e]] + (if e == |s| then [] else LinesFrom(s, e + 1))
  }

  /** The text split at every line terminator (an empty text is one empty line). */
  function Lines(s: string): seq<string> {
    LinesFrom(s, 0)
  }

  /** The record a line contributes: one if it matches, none otherwise. */
  function RecordOf(L: string): seq<Diagnostic> {
    match MatchLine(L)
    case Some(m) => [ToRecord(m)]
    case None => []
  }

  /** Specification: the record of every line that matches, in line order. */
  function DiagnosticsOfLines(ls: seq<string>): seq<Diagnostic> {
    if |ls| == 0 then [] else RecordOf(ls[0]) + DiagnosticsOfLines(ls[1..])
  }

  lemma DiagnosticsOfLinesCons(L: string, rest: seq<string>)
    ensures DiagnosticsOfLines([L] + rest) == RecordOf(L) + DiagnosticsOfLines(rest)
  {
    assert ([L] + rest)[0] == L && ([L] + rest)[1..] == rest;
  }

  function Diagnostics(s: string): seq<Diagnostic> {
    DiagnosticsOfLines(Lines(s))
  }

  /** At most one record per line. */
  lemma {:induction false} DiagnosticsAtMostOnePerLine(ls: seq<string>)
    ensures |DiagnosticsOfLines(ls)| <= |ls|
  {
    if |ls| > 0 {
      DiagnosticsAtMostOnePerLine(ls[1..]);
    }
  }

  /**
   * Every record is read from a line that matches the pattern, so its kind
   * is `warning` or `error`.
   */
  lemma {:induction false} DiagnosticsFromMatchingLines(ls: seq<string>)
    ensures forall d :: d in DiagnosticsOfLines(ls) ==>
      exists j :: 0 <= j < |ls| && MatchLine(ls[j]).Some? && d == ToRecord(MatchLine(ls[j]).value)
    ensures forall d :: d in DiagnosticsOfLines(ls) ==> d.kind == "warning" || d.kind == "error"
  {
    if |ls| > 0 {
      DiagnosticsFromMatchingLines(ls[1..]);
      forall d | d in DiagnosticsOfLines(ls)
        ensures exists j :: 0 <= j < |ls| && MatchLine(ls[j]).Some? && d == ToRecord(MatchLine(ls[j]).value)
      {
        if d !in RecordOf(ls[0]) {
          var j :| 0 <= j < |ls[1..]| && MatchLine(ls[1..][j]).Some? && d == ToRecord(MatchLine(ls[1..][j]).value);
          assert ls[1..][j] == ls[j + 1];
        }
      }
    }
  }

  /** Records come out in line order: the lines of two texts contribute in turn. */
  lemma {:induction false} DiagnosticsOfLinesAppend(xs: seq<string>, ys: seq<string>)
    ensures DiagnosticsOfLines(xs + ys) == DiagnosticsOfLines(xs) + DiagnosticsOfLines(ys)
  {
    if |xs| == 0 {
      assert xs + ys == ys;
    } else {
      assert (xs + ys)[1..] == xs[1..] + ys;
      DiagnosticsOfLinesAppend(xs[1..], ys);
    }
  }

  /** The number of line terminators at or after `i`. */
  function TerminatorsFrom(s: string, i: nat): nat
    requires i <= |s|
    decreases |s| - i
  {
    if i == |s| then 0 else (if IsLineTerminator(s[i]) then 1 else 0) + TerminatorsFrom(s, i + 1)
  }

  lemma {:induction false} TerminatorsWithinLine(s: string, i: nat)
    requires i <= |s|
    ensures TerminatorsFrom(s, i) == TerminatorsFrom(s, LineEnd(s, i))
    decreases |s| - i
  {
    if i < |s| && !IsLineTerminator(s[i]) {
      TerminatorsWithinLine(s, i + 1);
    }
  }

  /** A text has one line more than it has line terminators. */
  lemma {:induction false} LinesCount(s: string, i: nat)
    requires i <= |s|
    ensures |LinesFrom(s, i)| == 1 + TerminatorsFrom(s, i)
    decreases |s| - i
  {
    var e := LineEnd(s, i);
    TerminatorsWithinLine(s, i);
    if e < |s| {
      LinesCount(s, e + 1);
    }
  }

  /**
   * When `\n` is the only line terminator in the text, joining its lines with
   * `\n` gives the text back: the lines cover the text and lose nothing but
   * the terminators.
   */
  lemma {:induction false} LinesJoin(s: string, i: nat)
    requires i <= |s|
    requires forall k :: 0 <= k < |s| && IsLineTerminator(s[k]) ==> s[k] == '\n'
    ensures Join(LinesFrom(s, i), "\n") == s[i..]
    decreases |s| - i
  {
    var e := LineEnd(s, i);
    if e < |s| {
      LinesJoin(s, e + 1);
      var rest := LinesFrom(s, e + 1);
      assert LinesFrom(s, i) == [s[i..e]] + rest;
      assert Join(LinesFrom(s, i), "\n") == s[i..e] + "\n" + Join(rest, "\n");
      assert s[i..] == s[i..e] + [s[e]] + s[e + 1..];
    }
  }

  /** A match starts at `p`: `^` holds there and the line from `p` matches. */
  predicate MatchStartsAt(s: string, p: nat)
    requires p <= |s|
  {
    LineStart(s, p) && MatchLine(s[p..LineEnd(s, p)]).Some?
  }

  /** `regex.exec(s)` with `lastIndex == from`: the leftmost match at or after `from`, with its captures. */
  function ExecDiagnostic(s: string, from: nat): (r: Option<(nat, LineMatch)>)
    requires from <= |s|
    decreases |s| - from
    ensures r.Some? ==> from <= r.value.0 <= |s| && MatchStartsAt(s, r.value.0)
    ensures r.Some? ==> MatchLine(s[r.value.0..LineEnd(s, r.value.0)]) == Some(r.value.1)
    ensures r.Some? ==> forall p :: from <= p < r.value.0 ==> !MatchStartsAt(s, p)
    ensures r.None? ==> forall p :: from <= p <= |s| ==> !MatchStartsAt(s, p)
  {
    if MatchStartsAt(s, from) then Some((from, MatchLine(s[from..LineEnd(s, from)]).value))
    else if from == |s| then None
    else ExecDiagnostic(s, from + 1)
  }

  /** The lines that start at or after `i`. */
  function LinesAfter(s: string, i: nat): seq<string>
    requires i <= |s|
  {
    if LineStart(s, i) then LinesFrom(s, i)
    else if LineEnd(s, i) == |s| then []
    else LinesFrom(s, LineEnd(s, i) + 1)
  }

  /**
   * One `exec` from `from` finds nothing exactly when no line starting at
   * or after `from` matches; otherwise it finds the first such line, and
   * scanning resumes at that line's end.
   */
  lemma {:induction false} ExecDiagnosticAgrees(s: string, from: nat)
    requires from <= |s|
    ensures match ExecDiagnostic(s, from)
      case None => DiagnosticsOfLines(LinesAfter(s, from)) == []
      case Some((p, m)) =>
        DiagnosticsOfLines(LinesAfter(s, from))
          == [ToRecord(m)] + DiagnosticsOfLines(LinesAfter(s, LineEnd(s, p)))
    decreases |s| - from
  {
    if MatchStartsAt(s, from) {
      MatchHere(s, from);
    } else if from == |s| {
      if LineStart(s, from) {
        LinesFromUnfold(s, from);
        DiagnosticsOfLinesCons(s[from..from], []);
        assert RecordOf(s[from..from]) == [];
      }
    } else {
      NoMatchHere(s, from);
      ExecDiagnosticAgrees(s, from + 1);
    }
  }

  lemma LinesFromUnfold(s: string, i: nat)
    requires i <= |s|
    ensures LinesFrom(s, i) == [s[i..LineEnd(s, i)]] + LinesAfterLine(s, i)
  {
  }

  /** The lines after the one that contains `i`. */
  function LinesAfterLine(s: string, i: nat): seq<string>
    requires i <= |s|
  {
    if LineEnd(s, i) == |s| then [] else LinesFrom(s, LineEnd(s, i) + 1)
  }

  lemma MatchHere(s: string, from: nat)
    requires from <= |s| && MatchStartsAt(s, from)
    ensures var m := MatchLine(s[from..LineEnd(s, from)]).value;
      DiagnosticsOfLines(LinesAfter(s, from))
        == [ToRecord(m)] + DiagnosticsOfLines(LinesAfter(s, LineEnd(s, from)))
  {
    var e := LineEnd(s, from);
    var L := s[from..e];
    assert LinesAfter(s, from) == LinesFrom(s, from);
    LinesFromUnfold(s, from);
    DiagnosticsOfLinesCons(L, LinesAfterLine(s, from));
    assert RecordOf(L) == [ToRecord(MatchLine(L).value)];
    assert |L| > 0;
    LineEndNoTerminator(s, from, e - 1);
    assert !LineStart(s, e);
    assert LineEnd(s, e) == e;
    assert LinesAfter(s, e) == LinesAfterLine(s, from);
  }

  lemma NoMatchHere(s: string, from: nat)
    requires from < |s| && !MatchStartsAt(s, from)
    ensures DiagnosticsOfLines(LinesAfter(s, from)) == DiagnosticsOfLines(LinesAfter(s, from + 1))
  {
    NoMatchSkipsLine(s, from);
    NextLinesAfter(s, from);
  }

  /** Without a match at `from`, the lines after `from` contribute what the later lines do. */
  lemma NoMatchSkipsLine(s: string, from: nat)
    requires from <= |s| && !MatchStartsAt(s, from)
    ensures DiagnosticsOfLines(LinesAfter(s, from)) == DiagnosticsOfLines(LinesAfterLine(s, from))
  {
    if LineStart(s, from) {
      var e := LineEnd(s, from);
      LinesFromUnfold(s, from);
      DiagnosticsOfLinesCons(s[from..e], LinesAfterLine(s, from));
      assert RecordOf(s[from..e]) == [];
    }
  }

  /** The lines starting after `from` are the lines after the one containing `from`. */
  lemma NextLinesAfter(s: string, from: nat)
    requires from < |s|
    ensures LinesAfter(s, from + 1) == LinesAfterLine(s, from)
  {
    if IsLineTerminator(s[from]) {
      assert LineEnd(s, from) == from && LineStart(s, from + 1);
    } else {
      assert LineEnd(s, from + 1) == LineEnd(s, from) && !LineStart(s, from + 1);
    }
  }

  /**
   * `parseMakeErrorOutput(output)`: repeatedly `exec` the pattern and push a
   * record of the captures, with `parseInt` of the line number.
   */
  method ParseMakeErrorOutput(output: string) returns (retVals: seq<Diagnostic>)
    ensures retVals == Diagnostics(output)
  {
    retVals := [];
    var lastIndex := 0;
    while true
      invariant lastIndex <= |output|
      invariant retVals + DiagnosticsOfLines(LinesAfter(output, lastIndex)) == Diagnostics(output)
      decreases |output| - lastIndex
    {
      ExecDiagnosticAgrees(output, lastIndex);
      var found := ExecDiagnostic(output, lastIndex);
      if found.None? {
        return;
      }
      var (start, m) := found.value;
      retVals := retVals + [ToRecord(m)];
      lastIndex := LineEnd(output, start);
    }
  }
}
