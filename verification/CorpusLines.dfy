/**
 Lines of a part file. A line ends at a line feed, a carriage return, or a carriage return and a line feed; lines
 that are blank once stripped hold no document (src/beacon_scale_infra/index/corpus_catalog.py).
 */
module CorpusLines {
  import opened Collections

  type Byte = b: int | 0 <= b < 256

  type Bytes = seq<Byte>

  const LF: Byte := 10
  const CR: Byte := 13

  function FirstBreak(raw: Bytes): (n: nat)
    ensures n <= |raw|
  {
    if raw == [] || raw[0] == LF || raw[0] == CR then 0 else 1 + FirstBreak(raw[1..])
  }

  lemma {:induction false} FirstBreakIsFirst(raw: Bytes)
    ensures var n := FirstBreak(raw);
            && (forall i | 0 <= i < n :: raw[i] != LF && raw[i] != CR)
            && (n < |raw| ==> raw[n] == LF || raw[n] == CR)
  {
    if raw != [] && raw[0] != LF && raw[0] != CR {
      FirstBreakIsFirst(raw[1..]);
      assert raw == [raw[0]] + raw[1..];
    }
  }

  function BreakLength(raw: Bytes, n: nat): nat
    requires n < |raw|
  {
    if raw[n] == CR && n + 1 < |raw| && raw[n + 1] == LF then 2 else 1
  }

  /** `bytes.splitlines()` */
  function SplitLines(raw: Bytes): seq<Bytes>
    decreases |raw|
  {
    if raw == [] then []
    else
      var n := FirstBreak(raw);
      if n == |raw| then [raw] else [raw[..n]] + SplitLines(raw[n + BreakLength(raw, n)..])
  }

  predicate IsSpace(b: Byte) {
    b == 32 || 9 <= b <= 13
  }

  function Strip(line: Bytes): Bytes
    decreases |line|
  {
    if line == [] then []
    else if IsSpace(line[0]) then Strip(line[1..])
    else if IsSpace(line[|line| - 1]) then Strip(line[..|line| - 1])
    else line
  }

  /** What is left of the lines that are not blank. */
  function NonBlank(lines: seq<Bytes>): seq<Bytes> {
    if lines == [] then []
    else
      var line := Strip(lines[|lines| - 1]);
      NonBlank(lines[..|lines| - 1]) + if line == [] then [] else [line]
  }

  /** The lines that hold documents, in order. */
  function DocumentLines(raw: Bytes): seq<Bytes> {
    NonBlank(SplitLines(raw))
  }

  predicate EndsWithLF(raw: Bytes) {
    raw != [] && raw[|raw| - 1] == LF
  }

  /** A part as it is copied: one that is not empty is made to end with a line feed. */
  function Terminated(raw: Bytes): Bytes {
    if raw != [] && !EndsWithLF(raw) then raw + [LF] else raw
  }

  predicate IsBreak(brk: Bytes, rest: Bytes) {
    brk == [LF] || brk == [CR, LF] || (brk == [CR] && (rest == [] || rest[0] != LF))
  }

  /** A line goes up to its break, whichever of the three that is, and the break belongs to no line. */
  lemma LinesEndAtBreaks(line: Bytes, brk: Bytes, rest: Bytes)
    requires (forall b | b in line :: b != LF && b != CR) && IsBreak(brk, rest)
    ensures SplitLines(line + brk + rest) == [line] + SplitLines(rest)
    ensures line != [] ==> SplitLines(line) == [line]
  {
    var raw := line + brk + rest;
    FirstBreakIsFirst(raw);
    FirstBreakIsFirst(line);
    assert forall i | 0 <= i < |line| :: raw[i] == line[i] && line[i] in line;
    assert raw[|line|] == brk[0] && FirstBreak(raw) == |line|;
    assert |brk| == 1 && rest != [] ==> raw[|line| + 1] == rest[0];
    assert |brk| == 2 ==> raw[|line| + 1] == LF;
    assert BreakLength(raw, |line|) == |brk|;
    assert raw[..|line|] == line && raw[|line| + |brk|..] == rest;
  }

  /** Stripping takes away space at both ends, and nothing else. */
  lemma {:induction false} StripTakesSpaceOnly(line: Bytes) returns (before: Bytes, after: Bytes)
    ensures line == before + Strip(line) + after
    ensures forall b | b in before || b in after :: IsSpace(b)
    ensures Strip(line) != [] ==> !IsSpace(Strip(line)[0]) && !IsSpace(Strip(line)[|Strip(line)| - 1])
    decreases |line|
  {
    before, after := [], [];
    if line != [] {
      if IsSpace(line[0]) {
        before, after := StripTakesSpaceOnly(line[1..]);
        before := [line[0]] + before;
        assert line == [line[0]] + line[1..];
      } else if IsSpace(line[|line| - 1]) {
        before, after := StripTakesSpaceOnly(line[..|line| - 1]);
        after := after + [line[|line| - 1]];
        assert line == line[..|line| - 1] + [line[|line| - 1]];
      }
    }
  }

  lemma {:induction false} FirstBreakIn(a: Bytes, b: Bytes)
    ensures FirstBreak(a) < |a| ==> FirstBreak(a + b) == FirstBreak(a)
    ensures FirstBreak(a) == |a| ==> FirstBreak(a + b) == |a| + FirstBreak(b)
  {
    if a == [] {
      assert a + b == b;
    } else {
      assert (a + b)[1..] == a[1..] + b;
      FirstBreakIn(a[1..], b);
    }
  }

  /** How much of `raw` its first line takes, with its break. */
  function FirstLine(raw: Bytes): (m: nat)
    requires raw != []
    ensures 0 < m <= |raw|
  {
    var n := FirstBreak(raw);
    if n == |raw| then n else n + BreakLength(raw, n)
  }

  lemma SplitOne(raw: Bytes)
    requires raw != []
    ensures SplitLines(raw) == [raw[..FirstBreak(raw)]] + SplitLines(raw[FirstLine(raw)..])
  {
    if FirstBreak(raw) == |raw| { assert raw[..|raw|] == raw && raw[|raw|..] == []; }
  }

  lemma SameFirstLine(a: Bytes, b: Bytes)
    requires EndsWithLF(a)
    ensures FirstBreak(a + b) == FirstBreak(a) && FirstLine(a + b) == FirstLine(a)
    ensures (a + b)[..FirstBreak(a)] == a[..FirstBreak(a)] && (a + b)[FirstLine(a)..] == a[FirstLine(a)..] + b
    ensures a[FirstLine(a)..] == [] || EndsWithLF(a[FirstLine(a)..])
  {
    FirstBreakIn(a, b);
    FirstBreakIsFirst(a);
    assert FirstBreak(a) < |a|;
  }

  lemma {:induction false} SplitAppends(a: Bytes, b: Bytes)
    requires a == [] || EndsWithLF(a)
    ensures SplitLines(a + b) == SplitLines(a) + SplitLines(b)
    decreases |a|
  {
    if a == [] {
      assert a + b == b;
    } else {
      var line, rest := a[..FirstBreak(a)], a[FirstLine(a)..];
      SameFirstLine(a, b);
      SplitAppends(rest, b);
      SplitOne(a);
      SplitOne(a + b);
      Associative([line], SplitLines(rest), SplitLines(b));
    }
  }

  /** Ending a part with a line feed adds no line, also when it ended with a carriage return. */
  lemma {:induction false} TerminatingAddsNoLine(a: Bytes)
    ensures SplitLines(Terminated(a)) == SplitLines(a)
    decreases |a|
  {
    if a != [] && !EndsWithLF(a) {
      TerminatedFirstBreak(a);
      TerminatedFirstLine(a);
      SplitOne(a);
      SplitOne(a + [LF]);
      if FirstLine(a) < |a| { TerminatingAddsNoLine(a[FirstLine(a)..]); }
    }
  }

  lemma TerminatedFirstBreak(a: Bytes)
    ensures FirstBreak(a + [LF]) == FirstBreak(a)
    ensures (a + [LF])[..FirstBreak(a)] == a[..FirstBreak(a)]
  {
    FirstBreakIn(a, [LF]);
    assert FirstBreak([LF]) == 0;
  }

  lemma TerminatedFirstLine(a: Bytes)
    requires a != [] && !EndsWithLF(a)
    ensures var t := a + [LF];
            t[FirstLine(t)..] == if FirstLine(a) < |a| then Terminated(a[FirstLine(a)..]) else a[FirstLine(a)..]
  {
    TerminatedFirstBreak(a);
    TerminatedFirstLength(a);
    if FirstLine(a) < |a| { TerminatedTail(a, FirstLine(a)); }
  }

  lemma TerminatedFirstLength(a: Bytes)
    requires a != [] && !EndsWithLF(a) && FirstBreak(a + [LF]) == FirstBreak(a)
    ensures FirstLine(a + [LF]) == if FirstLine(a) < |a| then FirstLine(a) else |a + [LF]|
  {
    var t, n := a + [LF], FirstBreak(a);
    FirstBreakIsFirst(a);
    assert t[n] == if n < |a| then a[n] else LF;
    assert n + 1 < |a| ==> t[n + 1] == a[n + 1];
    assert n + 1 == |a| ==> t[n + 1] == LF && a[n] != LF;
  }

  lemma TerminatedTail(a: Bytes, m: nat)
    requires m < |a| && !EndsWithLF(a)
    ensures (a + [LF])[m..] == Terminated(a[m..])
  {
    assert a[m..][|a[m..]| - 1] == a[|a| - 1];
  }

  lemma {:induction false} NonBlankAppends(a: seq<Bytes>, b: seq<Bytes>)
    ensures NonBlank(a + b) == NonBlank(a) + NonBlank(b)
  {
    if b == [] {
      assert a + b == a;
    } else {
      assert (a + b)[..|a + b| - 1] == a + b[..|b| - 1];
      NonBlankAppends(a, b[..|b| - 1]);
    }
  }

  /** So the records of a concatenation of terminated parts are those of the parts, one after the other. */
  lemma DocumentLinesAppend(a: Bytes, b: Bytes)
    requires a == [] || EndsWithLF(a)
    ensures DocumentLines(a + Terminated(b)) == DocumentLines(a) + DocumentLines(b)
  {
    SplitAppends(a, Terminated(b));
    TerminatingAddsNoLine(b);
    NonBlankAppends(SplitLines(a), SplitLines(b));
  }

  lemma OneRecord(line: Bytes)
    requires line != [] && FirstBreak(line) == |line| && Strip(line) == line
    ensures DocumentLines(line) == [line]
  {
    NonBlankOne(line);
    assert SplitLines(line) == [line];
  }

  lemma NonBlankOne(line: Bytes)
    requires line != [] && Strip(line) == line
    ensures NonBlank([line]) == [line]
  {
    var lines := [line];
    assert lines[..|lines| - 1] == [];
    assert NonBlank(lines) == NonBlank([]) + [line];
  }

  lemma FirstBreakOfNone(line: Bytes)
    requires forall i | 0 <= i < |line| :: line[i] != LF && line[i] != CR
    ensures FirstBreak(line) == |line|
  {
    FirstBreakIsFirst(line);
  }

  /** One JSON object on one line, as `json.dumps` writes it. */
  predicate IsClean(line: Bytes) {
    && line != [] && !IsSpace(line[0]) && !IsSpace(line[|line| - 1])
    && forall i | 0 <= i < |line| :: line[i] != LF && line[i] != CR
  }

  lemma UnbrokenIsOneRecord(line: Bytes)
    requires IsClean(line)
    ensures DocumentLines(line) == [line]
  {
    FirstBreakOfNone(line);
    OneRecord(line);
  }

  /** Without the line feed, the last record of one part and the first of the next would run together. */
  lemma UnterminatedPartsRunTogether(a: Bytes, b: Bytes)
    requires IsClean(a) && IsClean(b)
    ensures DocumentLines(a + b) == [a + b] && DocumentLines(a) + DocumentLines(b) == [a, b]
  {
    UnbrokenIsOneRecord(a + b);
    UnbrokenIsOneRecord(a);
    UnbrokenIsOneRecord(b);
  }
}
