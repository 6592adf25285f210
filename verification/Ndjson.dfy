/**
 Newline-delimited bodies: reading lines, joining a sub-batch, and why a peer reads
 back exactly what was joined.
 */
module Ndjson {
  import opened Texts

  const NEWLINE: Byte := 0x0a

  /** White space is one ASCII byte, or two or three bytes that encode one of Unicode's other space characters. */
  predicate Space1(b: Byte) { b == 0x20 || 0x09 <= b <= 0x0d }

  predicate Space2(b: Byte, c: Byte) { b == 0xc2 && (c == 0x85 || c == 0xa0) }

  predicate Space3(b: Byte, c: Byte, d: Byte) {
    || (b == 0xe1 && c == 0x9a && d == 0x80)
    || (b == 0xe2 && c == 0x80 && (0x80 <= d <= 0x8a || d == 0xa8 || d == 0xa9 || d == 0xaf))
    || (b == 0xe2 && c == 0x81 && d == 0x9f)
    || (b == 0xe3 && c == 0x80 && d == 0x80)
  }

  /** The length of the space character that a text starts with, or 0. */
  function Leading(s: Text): (n: nat)
    ensures n <= |s|
  {
    if |s| >= 1 && Space1(s[0]) then 1
    else if |s| >= 2 && Space2(s[0], s[1]) then 2
    else if |s| >= 3 && Space3(s[0], s[1], s[2]) then 3
    else 0
  }

  function Trailing(s: Text): (n: nat)
    ensures n <= |s|
  {
    var k := |s|;
    if k >= 1 && Space1(s[k - 1]) then 1
    else if k >= 2 && Space2(s[k - 2], s[k - 1]) then 2
    else if k >= 3 && Space3(s[k - 3], s[k - 2], s[k - 1]) then 3
    else 0
  }

  /** The pieces of a body between newlines; the last one may be unterminated. */
  function Lines(body: Text): (ls: seq<Text>)
    ensures ls != []
  {
    if body == [] then [[]]
    else
      var ls, b := Lines(body[..|body| - 1]), body[|body| - 1];
      if b == NEWLINE then ls + [[]] else ls[..|ls| - 1] + [ls[|ls| - 1] + [b]]
  }

  function TrimLeft(s: Text): Text {
    if Leading(s) > 0 then TrimLeft(s[Leading(s)..]) else s
  }

  function TrimRight(s: Text): Text {
    if Trailing(s) > 0 then TrimRight(s[..|s| - Trailing(s)]) else s
  }

  function Trim(s: Text): Text { TrimRight(TrimLeft(s)) }

  function Join(raws: seq<Text>): Text {
    if raws == [] then []
    else if |raws| == 1 then raws[0]
    else Join(raws[..|raws| - 1]) + [NEWLINE] + raws[|raws| - 1]
  }

  /** What a line costs in a body: its bytes and one newline. */
  function Weight(ls: seq<Text>): nat {
    if ls == [] then 0 else Weight(ls[..|ls| - 1]) + |ls[|ls| - 1]| + 1
  }

  /** A line a sub-batch may carry: trimmed, not blank, and on one line. */
  predicate Raw(s: Text) { s != [] && Leading(s) == 0 && Trailing(s) == 0 && NEWLINE !in s }

  lemma RawIsTrimmed(s: Text)
    requires Raw(s)
    ensures Trim(s) == s
  {
  }

  lemma {:induction false} TrimLeftPart(s: Text)
    ensures |TrimLeft(s)| <= |s| && (forall b | b in TrimLeft(s) :: b in s)
    ensures Leading(TrimLeft(s)) == 0
  {
    if Leading(s) > 0 { TrimLeftPart(s[Leading(s)..]); }
  }

  lemma {:induction false} TrimRightPart(s: Text)
    ensures TrimRight(s) <= s
    ensures Trailing(TrimRight(s)) == 0
  {
    if Trailing(s) > 0 { TrimRightPart(s[..|s| - Trailing(s)]); }
  }

  /** A space that a prefix starts with starts the whole. */
  lemma LeadingPrefix(s: Text, t: Text)
    requires s <= t && Leading(t) == 0
    ensures Leading(s) == 0
  {
  }

  lemma TrimmedIsRaw(line: Text)
    requires NEWLINE !in line
    ensures Trim(line) == [] || Raw(Trim(line))
    ensures |Trim(line)| <= |line|
  {
    TrimLeftPart(line);
    TrimRightPart(TrimLeft(line));
    LeadingPrefix(Trim(line), TrimLeft(line));
  }

  /** Bytes of ASCII white space around a line, the carriage return of CR LF among them, do not matter. */
  lemma {:induction false} PaddingDoesNotMatter(line: Text, b: Byte)
    requires b == 0x20 || b == 0x09 || b == 0x0a || b == 0x0b || b == 0x0c || b == 0x0d
    ensures TrimLeft([b] + line) == TrimLeft(line)
    ensures TrimRight(line + [b]) == TrimRight(line)
  {
    assert ([b] + line)[1..] == line && (line + [b])[..|line|] == line;
  }

  /** No-break, ideographic and zero-width characters: the first two are spaces, the third is not. */
  lemma UnicodeSpaces(line: Text)
    ensures TrimLeft([0xc2, 0xa0] + line) == TrimLeft(line) && TrimRight(line + [0xe3, 0x80, 0x80]) == TrimRight(line)
    ensures TrimLeft([0xe2, 0x80, 0x8b] + line) == [0xe2, 0x80, 0x8b] + line
  {
    assert ([0xc2, 0xa0] + line)[2..] == line;
    var padded := line + [0xe3, 0x80, 0x80];
    assert padded[..|padded| - 3] == line;
  }

  lemma {:induction false} LinesHaveNoNewline(body: Text)
    ensures forall i | 0 <= i < |Lines(body)| :: 0x0a !in Lines(body)[i]
  {
    if body != [] { LinesHaveNoNewline(body[..|body| - 1]); }
  }

  lemma WeightSnoc(ls: seq<Text>, s: Text)
    ensures Weight(ls + [s]) == Weight(ls) + |s| + 1
  {
    assert (ls + [s])[..|ls|] == ls;
  }

  lemma {:induction false} LinesWeigh(body: Text)
    ensures Weight(Lines(body)) == |body| + 1
  {
    if body == [] {
      assert Lines(body) == [] + [[]];
      WeightSnoc([], []);
    } else {
      var ls, b := Lines(body[..|body| - 1]), body[|body| - 1];
      LinesWeigh(body[..|body| - 1]);
      if b == NEWLINE {
        WeightSnoc(ls, []);
      } else {
        WeightSnoc(ls[..|ls| - 1], ls[|ls| - 1] + [b]);
      }
    }
  }

  lemma {:induction false} JoinWeighs(raws: seq<Text>)
    requires raws != []
    ensures |Join(raws)| + 1 == Weight(raws)
  {
    if |raws| == 1 {
      assert raws[..0] == [];
    } else {
      JoinWeighs(raws[..|raws| - 1]);
    }
  }

  lemma {:induction false} LinesAfterNewline(a: Text, b: Text)
    requires NEWLINE !in b
    ensures Lines(a + [NEWLINE] + b) == Lines(a) + [b]
  {
    var whole := a + [NEWLINE] + b;
    var init := whole[..|whole| - 1];
    if b == [] {
      assert init == a;
    } else {
      assert init == a + [NEWLINE] + b[..|b| - 1];
      LinesAfterNewline(a, b[..|b| - 1]);
      assert b == b[..|b| - 1] + [b[|b| - 1]];
      assert whole[|whole| - 1] == b[|b| - 1] && b[|b| - 1] in b;
    }
  }

  lemma {:induction false} OneLine(b: Text)
    requires NEWLINE !in b
    ensures Lines(b) == [b]
  {
    if b != [] {
      OneLine(b[..|b| - 1]);
      assert b == b[..|b| - 1] + [b[|b| - 1]];
      assert b[|b| - 1] in b;
    }
  }

  predicate Unbroken(s: Text) { NEWLINE !in s }

  lemma JoinSnoc(raws: seq<Text>, last: Text)
    requires raws != []
    ensures Join(raws + [last]) == Join(raws) + [NEWLINE] + last
  {
    assert (raws + [last])[..|raws|] == raws;
  }

  lemma JoinedLast(raws: seq<Text>, last: Text)
    requires raws != [] && Unbroken(last) && Lines(Join(raws)) == raws
    ensures Lines(Join(raws + [last])) == raws + [last]
  {
    JoinSnoc(raws, last);
    LinesAfterNewline(Join(raws), last);
  }

  lemma {:induction false} JoinedLines(raws: seq<Text>)
    requires raws != [] && forall i | 0 <= i < |raws| :: Unbroken(raws[i])
    ensures Lines(Join(raws)) == raws
  {
    var init, last := raws[..|raws| - 1], raws[|raws| - 1];
    assert raws == init + [last];
    if init == [] {
      OneLine(last);
    } else {
      JoinedLines(init);
      JoinedLast(init, last);
    }
  }

  /** A peer that splits a joined sub-batch gets exactly its lines back, in order. */
  lemma SplitJoin(raws: seq<Text>)
    requires raws != [] && forall i | 0 <= i < |raws| :: Raw(raws[i])
    ensures Lines(Join(raws)) == raws
    ensures forall i | 0 <= i < |raws| :: Trim(raws[i]) == raws[i]
  {
    forall i | 0 <= i < |raws| ensures Trim(raws[i]) == raws[i] { RawIsTrimmed(raws[i]); }
    JoinedLines(raws);
  }
}
