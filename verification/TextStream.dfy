/** What a stringStream means: the text it holds, and the column it believes it is at. */
module TextStream {
  import opened Words
  import opened Memory

  // ----- columns -----

  /** `update_position` for one character. */
  function Next(position: nat, c: char): nat {
    if c == '\n' then 0
    else if c == '\t' then (position / 8 + 1) * 8
    else position + 1
  }

  /** The column after text s, from a given column. */
  function Column(position: nat, s: string): nat
    decreases |s|
  {
    if s == "" then position else Column(Next(position, s[0]), s[1..])
  }

  /** The column does not depend on how text is split into writes. */
  lemma {:induction false} ColumnSplit(position: nat, s: string, t: string)
    ensures Column(position, s + t) == Column(Column(position, s), t)
    decreases |s|
  {
    if s == "" {
      assert s + t == t;
    } else {
      assert (s + t)[1..] == s[1..] + t;
      ColumnSplit(Next(position, s[0]), s[1..], t);
    }
  }

  /** Only the text after the last newline matters. */
  lemma ColumnLastLine(position: nat, s: string, t: string)
    ensures Column(position, s + "\n" + t) == Column(0, t)
  {
    ColumnSplit(position, s + "\n", t);
    ColumnSplit(position, s, "\n");
    assert Column(Column(position, s), "\n") == Column(0, "");
  }

  /** A tab goes to the next multiple of 8. */
  lemma TabStop(position: nat)
    ensures Next(position, '\t') % 8 == 0 && position < Next(position, '\t') <= position + 8
  {
  }

  /** Every other character takes one column. */
  lemma {:induction false} ColumnPlain(position: nat, s: string)
    requires forall i :: 0 <= i < |s| ==> s[i] != '\n' && s[i] != '\t'
    ensures Column(position, s) == position + |s|
    decreases |s|
  {
    if s != "" {
      ColumnPlain(position + 1, s[1..]);
    }
  }

  lemma {:induction false} ColumnSpaces(position: nat, n: nat)
    ensures Column(position, Spaces(n)) == position + n
    decreases n
  {
    if n > 0 {
      assert Spaces(n)[1..] == Spaces(n - 1);
      ColumnSpaces(position + 1, n - 1);
    }
  }

  function Spaces(n: nat): (r: string)
    ensures |r| == n && forall i :: 0 <= i < n ==> r[i] == ' '
  {
    seq(n, _ => ' ')
  }

  // ----- the doubling loop -----

  /** The buffer size after a write that needs room for `need` characters and a terminator. */
  function GrownSize(size: nat, need: nat): (r: nat)
    requires size >= 1
    ensures r > need && r >= size
    ensures r <= need + need || r == size
    decreases need + 1 - size
  {
    if size <= need then GrownSize(2 * size, need) else size
  }

  /** A `size_t` doubled k times. */
  function Doublings(size: Word, k: nat): Word {
    if k == 0 then size else var half := Doublings(size, k - 1); Add(half, half)
  }

  /** The loop doubles once before its first test and ends when the size exceeds the need. */
  ghost predicate LoopEnds(size: Word, need: Word) { exists k: nat :: k >= 1 && Doublings(size, k) > need }

  lemma {:induction false} DoubleFirst(size: Word, k: nat)
    ensures Doublings(Add(size, size), k) == Doublings(size, k + 1)
  {
    if k > 0 {
      DoubleFirst(size, k - 1);
    }
  }

  lemma {:induction false} Reaches(size: Word, need: Word) returns (k: nat)
    requires 1 <= size <= need < ADDRESS_LIMIT
    ensures k >= 1 && Doublings(size, k) > need
    decreases need - size
  {
    k := 1;
    assert Doublings(size, 1) == Add(Doublings(size, 0), Doublings(size, 0)) == 2 * size;
    if 2 * size <= need {
      k := Reaches(2 * size, need);
      DoubleFirst(size, k);
      k := k + 1;
    }
  }

  /** The low k binary digits are 0. */
  predicate LowZeros(x: nat, k: nat) { k == 0 || (x % 2 == 0 && LowZeros(x / 2, k - 1)) }

  lemma {:induction false} LowZerosDifference(x: nat, y: nat, k: nat)
    requires y <= x && LowZeros(x, k) && LowZeros(y, k)
    ensures LowZeros(x - y, k)
    decreases k
  {
    if k > 0 {
      LowZerosDifference(x / 2, y / 2, k - 1);
      assert (x - y) / 2 == x / 2 - y / 2;
    }
  }

  lemma {:induction false} PowerLowZeros(j: nat, k: nat)
    requires k <= j
    ensures LowZeros(Pow2(j), k)
    decreases k
  {
    if k > 0 {
      var h := Pow2(j - 1);
      PowerLowZeros(j - 1, k - 1);
      assert Pow2(j) == 2 * h && 2 * h % 2 == 0 && 2 * h / 2 == h;
    }
  }

  lemma {:induction false} OnlyZeros(x: nat, k: nat)
    requires LowZeros(x, k) && x < Pow2(k)
    ensures x == 0
    decreases k
  {
    if k > 0 {
      OnlyZeros(x / 2, k - 1);
    }
  }

  lemma TopBit(k: nat)
    requires k <= 63
    ensures LowZeros(ADDRESS_LIMIT, k)
  {
    Pow2Is64();
    var n := 63;
    assert Pow2(n + 1) == 2 * Pow2(n);
    PowerLowZeros(n, k);
  }

  lemma DoubledLowZeros(half: Word, k: nat)
    requires k <= 63 && LowZeros(half, k)
    ensures LowZeros(Add(half, half), k + 1)
  {
    var x := half;
    if half >= ADDRESS_LIMIT {
      TopBit(k);
      LowZerosDifference(half, ADDRESS_LIMIT, k);
      x := half - ADDRESS_LIMIT;
    }
    assert Add(half, half) == 2 * x && 2 * x / 2 == x;
  }

  /** Each doubling of a word brings in a zero digit. */
  lemma {:induction false} DoublingsLowZeros(size: Word, k: nat)
    requires k <= 64
    ensures LowZeros(Doublings(size, k), k)
    decreases k
  {
    if k > 0 {
      DoublingsLowZeros(size, k - 1);
      DoubledLowZeros(Doublings(size, k - 1), k - 1);
    }
  }

  lemma {:induction false} DoublingsEndInZero(size: Word, k: nat)
    requires k >= 64
    ensures Doublings(size, k) == 0
    decreases k
  {
    if k == 64 {
      DoublingsLowZeros(size, 64);
      Pow2Is64();
      OnlyZeros(Doublings(size, 64), 64);
    } else {
      DoublingsEndInZero(size, k - 1);
    }
  }

  ghost predicate EndsEarly(size: Word, need: Word) { exists k: nat :: 1 <= k < 64 && Doublings(size, k) > need }

  lemma LoopEndsEarly(size: Word, need: Word)
    ensures LoopEnds(size, need) <==> EndsEarly(size, need)
    ensures LoopEnds(size, need) ==> size >= 1
  {
    if LoopEnds(size, need) {
      var k: nat :| k >= 1 && Doublings(size, k) > need;
      if k >= 64 {
        DoublingsEndInZero(size, k);
      }
      if size == 0 {
        ZeroStays(k);
      }
      assert 1 <= k < 64 && size >= 1;
    }
  }

  /** When the loop ends, for a buffer that is too small: with a need below 2^63, exactly for a buffer of at
      least one character; with any need, exactly if one of the first 63 doublings, wrapping around, exceeds it. */
  lemma DoublingEnds(size: Word, need: Word)
    requires size <= need
    ensures LoopEnds(size, need) <==> EndsEarly(size, need)
    ensures need < ADDRESS_LIMIT ==> (LoopEnds(size, need) <==> size >= 1)
  {
    LoopEndsEarly(size, need);
    if need < ADDRESS_LIMIT && size >= 1 {
      var k := Reaches(size, need);
    }
  }

  lemma {:induction false} ZeroStays(k: nat)
    ensures Doublings(0, k) == 0
  {
    if k > 0 {
      ZeroStays(k - 1);
    }
  }

  lemma {:induction false} PowerDoublings(j: nat, k: nat)
    requires j < 64
    ensures 0 < Pow2(j) < WORD
    ensures Doublings(Pow2(j), k) == if j + k < 64 then Pow2(j + k) else 0
    decreases k
  {
    Pow2Is64();
    Pow2Monotone(j, 63);
    if k > 0 {
      PowerDoublings(j, k - 1);
      if j + k < 64 {
        Pow2Monotone(j + k, 63);
      }
    }
  }

  /** For a power of two, the size of every owned buffer, the loop ends exactly when the need is below 2^63. */
  lemma PowerDoublingEnds(j: nat, need: Word)
    requires j < 64 && Pow2(j) <= need
    ensures Pow2(j) < WORD && (LoopEnds(Pow2(j), need) <==> need < ADDRESS_LIMIT)
  {
    Pow2Is64();
    Pow2Monotone(j, 63);
    DoublingEnds(Pow2(j), need);
    if need >= ADDRESS_LIMIT {
      forall k: nat | k >= 1 ensures Doublings(Pow2(j), k) <= need {
        PowerDoublings(j, k);
        if j + k < 64 {
          Pow2Monotone(j + k, 63);
        }
      }
    }
  }

  // ----- streams -----

  /** `text` is what the buffer holds; `size` is the buffer's size; `history` is all text ever accepted;
      `behind` is the character after the text, which is a terminator only if one was written there. */
  datatype Stream = Stream(text: string, size: nat, owns: bool, position: nat, history: string, behind: char)

  /** A new owning stream: the first character of its buffer is what malloc left there. */
  function New(left: char): Stream { Stream("", 1024, true, 0, "", left) }

  /** What a write keeps of its text: everything, or what fits before the terminator of a fixed buffer. */
  function Accepted(s: Stream, str: string): string
    requires |s.text| < s.size
  {
    if !s.owns && |s.text| + |str| >= s.size then str[..s.size - |s.text| - 1] else str
  }

  /** A write to a fixed buffer that has no room left returns at once. */
  predicate Refused(s: Stream, str: string) {
    !s.owns && |s.text| + |str| >= s.size && |s.text| + 1 == s.size
  }

  function Write(s: Stream, str: string): (r: Stream)
    requires |s.text| < s.size
    ensures |r.text| < r.size
  {
    var a := Accepted(s, str);
    s.(text := s.text + a,
       size := if s.owns then GrownSize(s.size, |s.text| + |str|) else s.size,
       position := Column(s.position, a),
       history := s.history + a,
       behind := if Refused(s, str) then s.behind else '\0')
  }

  /** `stringStream::reset`: neither the column nor the buffer is touched. */
  function Reset(s: Stream): Stream { s.(text := "", behind := if s.text == "" then s.behind else s.text[0]) }

  /** `as_string`: the text and the character after it. */
  function Copy(s: Stream): string { s.text + [s.behind] }

  /** `sp(count)`: that many one-character writes. */
  function Sp(s: Stream, count: nat): (r: Stream)
    requires |s.text| < s.size
    ensures |r.text| < r.size && r.owns == s.owns && (!s.owns ==> r.size == s.size)
    decreases count
  {
    if count == 0 then s else Sp(Write(s, " "), count - 1)
  }

  /** `cr()`: a newline, and then column 0 whether or not the newline was kept. */
  function Cr(s: Stream): Stream
    requires |s.text| < s.size
  {
    Write(s, "\n").(position := 0)
  }

  function FillTo(s: Stream, col: int): Stream
    requires |s.text| < s.size
  {
    if col > s.position then Sp(s, col - s.position) else s
  }

  function Bol(s: Stream): Stream
    requires |s.text| < s.size
  {
    if s.position > 0 then Cr(s) else s
  }

  // ----- writes and their splitting -----

  /** Splitting a write in two changes neither the text nor the column, in owning and fixed streams alike. */
  lemma WriteSplit(s: Stream, a: string, b: string)
    requires |s.text| < s.size
    ensures Write(Write(s, a), b).text == Write(s, a + b).text
    ensures Write(Write(s, a), b).position == Write(s, a + b).position
    ensures Write(Write(s, a), b).history == Write(s, a + b).history
  {
    var x := Accepted(s, a);
    var y := Accepted(Write(s, a), b);
    assert x + y == Accepted(s, a + b);
    ColumnSplit(s.position, x, y);
    assert s.text + x + y == s.text + (x + y);
    assert s.history + x + y == s.history + (x + y);
  }

  lemma {:induction false} SpIsWrite(s: Stream, count: nat)
    requires |s.text| < s.size
    ensures Sp(s, count).text == Write(s, Spaces(count)).text
    ensures Sp(s, count).position == Write(s, Spaces(count)).position
    ensures Sp(s, count).history == Write(s, Spaces(count)).history
    decreases count
  {
    if count > 0 {
      SpIsWrite(Write(s, " "), count - 1);
      WriteSplit(s, " ", Spaces(count - 1));
      assert " " + Spaces(count - 1) == Spaces(count);
    } else {
      assert Spaces(0) == "";
      assert s.text + "" == s.text && s.history + "" == s.history;
    }
  }

  // ----- runs -----

  datatype TextOp = Put(str: string) | Blanks(count: int) | Fill(col: int) | NewLine | LineStart | Restart

  function Do(s: Stream, op: TextOp): (r: Stream)
    requires |s.text| < s.size
    ensures |r.text| < r.size && r.owns == s.owns && (!s.owns ==> r.size == s.size)
  {
    match op
    case Put(str) => Write(s, str)
    case Blanks(n) => Sp(s, if n > 0 then n else 0)
    case Fill(col) => FillTo(s, col)
    case NewLine => Cr(s)
    case LineStart => Bol(s)
    case Restart => Reset(s)
  }

  function Run(s: Stream, ops: seq<TextOp>): (r: Stream)
    requires |s.text| < s.size
    ensures |r.text| < r.size && r.owns == s.owns
    decreases |ops|
  {
    if ops == [] then s else Run(Do(s, ops[0]), ops[1..])
  }

  /** The text that a call, made at some column, asks to have written. */
  function TextAt(position: nat, op: TextOp): string {
    match op
    case Put(str) => str
    case Blanks(n) => Spaces(if n > 0 then n else 0)
    case Fill(col) => Spaces(if col > position then col - position else 0)
    case NewLine => "\n"
    case LineStart => if position > 0 then "\n" else ""
    case Restart => ""
  }

  /** All text that the calls ask to have written, if the column is that of the text so far. */
  function Texts(position: nat, ops: seq<TextOp>): string
    decreases |ops|
  {
    if ops == [] then ""
    else var x := TextAt(position, ops[0]); x + Texts(Column(position, x), ops[1..])
  }

  /** The text asked for since the last restart, started off with some text. */
  function Since(start: string, s: Stream, ops: seq<TextOp>): string
    requires |s.text| < s.size
    decreases |ops|
  {
    if ops == [] then start
    else Since(if ops[0].Restart? then "" else start + TextAt(s.position, ops[0]), Do(s, ops[0]), ops[1..])
  }

  /** Each call is a write of the text it asks for, as far as text and history go. */
  lemma DoIsWrite(s: Stream, op: TextOp)
    requires |s.text| < s.size && !op.Restart?
    ensures Do(s, op).text == Write(s, TextAt(s.position, op)).text
    ensures Do(s, op).history == Write(s, TextAt(s.position, op)).history
    ensures s.owns ==> Do(s, op).position == Column(s.position, TextAt(s.position, op))
  {
    match op
    case Blanks(n) => SpIsWrite(s, if n > 0 then n else 0);
    case Fill(col) => SpIsWrite(s, if col > s.position then col - s.position else 0);
    case LineStart =>
      assert s.text + "" == s.text && s.history + "" == s.history;
      assert Column(s.position, "\n") == Column(0, "");
    case NewLine =>
      assert Column(s.position, "\n") == Column(0, "");
    case _ =>
  }

  lemma OwningStep(s: Stream, op: TextOp)
    requires |s.text| < s.size && s.owns
    ensures Do(s, op).position == Column(s.position, TextAt(s.position, op))
    ensures Do(s, op).history == s.history + TextAt(s.position, op)
    ensures !op.Restart? ==> Do(s, op).text == s.text + TextAt(s.position, op)
  {
    if op.Restart? {
      assert s.history + "" == s.history;
    } else {
      DoIsWrite(s, op);
    }
  }

  lemma {:induction false} OwningText(s: Stream, ops: seq<TextOp>)
    requires |s.text| < s.size && s.owns
    ensures Run(s, ops).text == Since(s.text, s, ops)
    decreases |ops|
  {
    if ops != [] {
      OwningStep(s, ops[0]);
      OwningText(Do(s, ops[0]), ops[1..]);
    }
  }

  lemma AppendTwice(a: string, b: string, c: string)
    ensures a + b + c == a + (b + c)
  {
  }

  lemma {:induction false} OwningHistory(s: Stream, ops: seq<TextOp>)
    requires |s.text| < s.size && s.owns
    ensures Run(s, ops).history == s.history + Texts(s.position, ops)
    decreases |ops|
  {
    if ops != [] {
      var x := TextAt(s.position, ops[0]);
      OwningStep(s, ops[0]);
      OwningHistory(Do(s, ops[0]), ops[1..]);
      AppendTwice(s.history, x, Texts(Column(s.position, x), ops[1..]));
    } else {
      assert s.history + "" == s.history;
    }
  }

  lemma {:induction false} OwningColumn(s: Stream, ops: seq<TextOp>)
    requires |s.text| < s.size && s.owns
    ensures Run(s, ops).position == Column(s.position, Texts(s.position, ops))
    decreases |ops|
  {
    if ops != [] {
      var x := TextAt(s.position, ops[0]);
      OwningStep(s, ops[0]);
      OwningColumn(Do(s, ops[0]), ops[1..]);
      ColumnSplit(s.position, x, Texts(Column(s.position, x), ops[1..]));
    }
  }

  /** An owning stream holds exactly the text asked for since the last reset, and its column is that of all
      text ever asked for, however it was cut into calls and whatever was reset in between. */
  lemma OwningRun(s: Stream, ops: seq<TextOp>)
    requires |s.text| < s.size && s.owns
    ensures Run(s, ops).text == Since(s.text, s, ops)
    ensures Run(s, ops).history == s.history + Texts(s.position, ops)
    ensures Run(s, ops).position == Column(s.position, Texts(s.position, ops))
  {
    OwningText(s, ops);
    OwningHistory(s, ops);
    OwningColumn(s, ops);
  }

  function Front(t: string, n: nat): string { if |t| <= n then t else t[..n] }

  /** A fixed stream of size n holds exactly the first n-1 characters asked for since the last reset, however
      the text was cut into calls. */
  lemma {:induction false} FixedRun(s: Stream, put: string, ops: seq<TextOp>)
    requires |s.text| < s.size && !s.owns && s.text == Front(put, s.size - 1)
    ensures Run(s, ops).text == Front(Since(put, s, ops), s.size - 1)
    decreases |ops|
  {
    if ops != [] {
      var x := TextAt(s.position, ops[0]);
      if ops[0].Restart? {
        FixedRun(Do(s, ops[0]), "", ops[1..]);
      } else {
        DoIsWrite(s, ops[0]);
        assert Write(s, x).text == Front(put + x, s.size - 1);
        FixedRun(Do(s, ops[0]), put + x, ops[1..]);
      }
    }
  }

  /** The buffer after a write: a fixed one never changes; an owned one only if text and terminator do not fit, and
      then to the least of 2, 4, 8, ... times its size in which they do. */
  lemma WriteSize(s: Stream, str: string)
    requires |s.text| < s.size
    ensures !s.owns || |s.text| + |str| < s.size ==> Write(s, str).size == s.size
    ensures s.owns && |s.text| + |str| >= s.size ==>
              && Write(s, str).size > |s.text| + |str|
              && (exists k: nat :: k >= 1 && Write(s, str).size == s.size * Pow2(k))
              && (forall k: nat :: s.size * Pow2(k) > |s.text| + |str| ==> Write(s, str).size <= s.size * Pow2(k))
  {
    if s.owns && |s.text| + |str| >= s.size {
      GrownIsLeast(s.size, |s.text| + |str|);
    }
  }

  lemma {:induction false} GrownIsLeast(size: nat, need: nat)
    requires 1 <= size <= need
    ensures exists k: nat :: k >= 1 && GrownSize(size, need) == size * Pow2(k)
    ensures forall k: nat :: size * Pow2(k) > need ==> GrownSize(size, need) <= size * Pow2(k)
    decreases need - size
  {
    if 2 * size <= need {
      GrownIsLeast(2 * size, need);
      var i: nat :| i >= 1 && GrownSize(2 * size, need) == 2 * size * Pow2(i);
      TwicePower(size, i);
      assert i + 1 >= 1 && GrownSize(size, need) == size * Pow2(i + 1);
    } else {
      assert Pow2(1) == 2 && GrownSize(size, need) == size * Pow2(1);
    }
    forall k: nat | size * Pow2(k) > need ensures GrownSize(size, need) <= size * Pow2(k) {
      assert k > 0;
      TwicePower(size, k - 1);
      if 2 * size > need {
        assert 2 * size * Pow2(k - 1) >= 2 * size;
      }
    }
  }

  lemma TwicePower(size: nat, k: nat)
    ensures 2 * size * Pow2(k) == size * Pow2(k + 1)
  {
    assert Pow2(k + 1) == 2 * Pow2(k);
  }

  /** `history` gains, in any stream, exactly what the text gains. */
  lemma HistoryStep(s: Stream, op: TextOp)
    requires |s.text| < s.size
    ensures s.history <= Do(s, op).history
    ensures op.Restart? ==> Do(s, op).history == s.history
    ensures !op.Restart? ==> Do(s, op).text == s.text + Do(s, op).history[|s.history|..]
  {
    if !op.Restart? {
      DoIsWrite(s, op);
      var a := Accepted(s, TextAt(s.position, op));
      assert (s.history + a)[|s.history|..] == a;
    }
  }

  lemma {:induction false} GrownPower(j: nat, need: nat) returns (k: nat)
    ensures GrownSize(Pow2(j), need) == Pow2(k)
    decreases need + 1 - Pow2(j)
  {
    if Pow2(j) <= need {
      k := GrownPower(j + 1, need);
    } else {
      k := j;
    }
  }

  lemma {:induction false} SpPower(s: Stream, count: nat, j: nat) returns (k: nat)
    requires |s.text| < s.size && s.owns && s.size == Pow2(j)
    ensures Sp(s, count).size == Pow2(k)
    decreases count
  {
    k := j;
    if count > 0 {
      k := GrownPower(j, |s.text| + 1);
      k := SpPower(Write(s, " "), count - 1, k);
    }
  }

  lemma DoPower(s: Stream, op: TextOp, j: nat) returns (k: nat)
    requires |s.text| < s.size && s.owns && s.size == Pow2(j)
    ensures Do(s, op).size == Pow2(k)
  {
    match op
    case Put(str) => k := GrownPower(j, |s.text| + |str|);
    case Blanks(n) => k := SpPower(s, if n > 0 then n else 0, j);
    case Fill(col) => k := SpPower(s, if col > s.position then col - s.position else 0, j);
    case NewLine => k := GrownPower(j, |s.text| + 1);
    case LineStart => k := GrownPower(j, |s.text| + 1); k := if s.position > 0 then k else j;
    case Restart => k := j;
  }

  lemma {:induction false} RunPower(s: Stream, ops: seq<TextOp>, j: nat) returns (k: nat)
    requires |s.text| < s.size && s.owns && s.size == Pow2(j)
    ensures Run(s, ops).size == Pow2(k)
    decreases |ops|
  {
    k := j;
    if ops != [] {
      k := DoPower(s, ops[0], j);
      k := RunPower(Do(s, ops[0]), ops[1..], k);
    }
  }

  /** Whatever was written to an owning stream: the next write that has to enlarge the buffer returns exactly
      when it needs less than 2^63 characters. */
  lemma OwningLoopEnds(left: char, ops: seq<TextOp>, need: Word)
    requires Run(New(left), ops).size <= need
    ensures LoopEnds(Run(New(left), ops).size, need) <==> need < ADDRESS_LIMIT
  {
    assert Pow2(10) == 1024;
    var j := RunPower(New(left), ops, 10);
    if j >= 64 {
      Pow2Is64();
      Pow2Monotone(64, j);
      assert false;
    }
    PowerDoublingEnds(j, need);
  }

  /** `print_raw` with length -1 on a new stream asks for 2^64 - 1 characters, and never returns. */
  lemma MinusOneNeverEnds()
    ensures !LoopEnds(1024, WORD - 1)
  {
  }

  // ----- is the copy a C string? -----

  /** Text, if there is any, is followed by a terminator. */
  predicate Closed(s: Stream) { s.text != "" ==> s.behind == '\0' }

  /** Does the call write a terminator? Every call that writes does, but for a one-character fixed buffer, into
      which only an empty text goes. */
  predicate Terminates(s: Stream, op: TextOp) {
    var x := TextAt(s.position, op);
    (op.Put? || x != "") && (s.owns || s.size > 1 || x == "")
  }

  lemma {:induction false} SpBehind(s: Stream, count: nat)
    requires |s.text| < s.size && Closed(s)
    ensures Closed(Sp(s, count))
    ensures s.owns || s.size > 1 ==> Sp(s, count).behind == if count > 0 then '\0' else s.behind
    ensures !s.owns && s.size == 1 ==> Sp(s, count).behind == s.behind
    decreases count
  {
    if count > 0 {
      SpBehind(Write(s, " "), count - 1);
    }
  }

  lemma BehindStep(s: Stream, op: TextOp)
    requires |s.text| < s.size && Closed(s)
    ensures Closed(Do(s, op))
    ensures Terminates(s, op) ==> Do(s, op).behind == '\0'
    ensures !Terminates(s, op) && !op.Restart? ==> Do(s, op).behind == s.behind && Do(s, op).text == s.text
  {
    match op
    case Blanks(n) =>
      SpBehind(s, if n > 0 then n else 0);
      DoIsWrite(s, op);
    case Fill(col) =>
      SpBehind(s, if col > s.position then col - s.position else 0);
      DoIsWrite(s, op);
    case _ =>
  }

  /** Index of the last call that writes a terminator; -1 if none does. */
  function LastTerminating(s: Stream, ops: seq<TextOp>): (k: int)
    requires |s.text| < s.size
    ensures -1 <= k < |ops|
    decreases |ops|
  {
    if ops == [] then -1
    else
      var k := LastTerminating(Do(s, ops[0]), ops[1..]);
      if k >= 0 then k + 1 else if Terminates(s, ops[0]) then 0 else -1
  }

  predicate Restarted(ops: seq<TextOp>, from: nat) { exists i :: from <= i < |ops| && ops[i].Restart? }

  /** The copy that as_string makes ends in a terminator exactly when, after the last call that wrote one, the
      stream was not reset, or there was no text, or a text that itself begins with a terminator. Without such
      a call the same goes for the stream's first state: a new stream's copy is one uninitialised character. */
  lemma {:induction false} CopyTerminatedExactly(s: Stream, ops: seq<TextOp>)
    requires |s.text| < s.size && Closed(s)
    ensures var k := LastTerminating(s, ops);
            var v := Run(s, ops[..k + 1]);
            Run(s, ops).behind == '\0' <==>
              if Restarted(ops, k + 1) && v.text != "" then v.text[0] == '\0' else k >= 0 || s.behind == '\0'
    decreases |ops|
  {
    if ops == [] {
      assert ops[..0] == [];
    } else {
      var op, rest, v := ops[0], ops[1..], Do(s, ops[0]);
      var j, k := LastTerminating(v, rest), LastTerminating(s, ops);
      BehindStep(s, op);
      CopyTerminatedExactly(v, rest);
      RestartedTail(ops, j + 1);
      if j >= 0 {
        assert ops[..k + 1][1..] == rest[..j + 1];
      } else if k == 0 {
        assert ops[..1][1..] == [] == rest[..0];
      } else {
        assert ops[..0] == [] == rest[..0];
        assert Restarted(ops, 0) <==> op.Restart? || Restarted(ops, 1);
      }
    }
  }

  lemma RestartedTail(ops: seq<TextOp>, from: nat)
    requires ops != []
    ensures Restarted(ops[1..], from) <==> Restarted(ops, from + 1)
  {
    if Restarted(ops, from + 1) {
      var i :| from + 1 <= i < |ops| && ops[i].Restart?;
      assert ops[1..][i - 1].Restart?;
    }
  }

  /** What as_string copies: the whole text since the last reset, and one character. Behind a text that character is
      a terminator. For an owning stream that is all text asked for, ... */
  lemma OwningCopy(s: Stream, ops: seq<TextOp>)
    requires |s.text| < s.size && s.owns && Closed(s)
    ensures var c, t := Copy(Run(s, ops)), Since(s.text, s, ops);
            |c| == |t| + 1 && c[..|t|] == t && (t != "" ==> c[|t|] == '\0')
  {
    OwningRun(s, ops);
    RunClosed(s, ops);
  }

  /** ... and for a fixed one of size n its first n-1 characters. */
  lemma FixedCopy(s: Stream, put: string, ops: seq<TextOp>)
    requires |s.text| < s.size && !s.owns && s.text == Front(put, s.size - 1) && Closed(s)
    ensures var c, t := Copy(Run(s, ops)), Front(Since(put, s, ops), s.size - 1);
            |c| == |t| + 1 && c[..|t|] == t && (t != "" ==> c[|t|] == '\0')
  {
    FixedRun(s, put, ops);
    RunClosed(s, ops);
  }

  lemma {:induction false} RunClosed(s: Stream, ops: seq<TextOp>)
    requires |s.text| < s.size && Closed(s)
    ensures Closed(Run(s, ops))
    decreases |ops|
  {
    if ops != [] {
      BehindStep(s, ops[0]);
      RunClosed(Do(s, ops[0]), ops[1..]);
    }
  }

  /** One write to a new stream, copied: the text and its terminator. */
  lemma CopyOfWrite(left: char, str: string)
    ensures Copy(Write(New(left), str)) == str + ['\0']
  {
    assert "" + str == str;
  }

  /** Write "a", reset, copy: the copy is "a" without a terminator. And the copy of a new stream is what malloc
      left. */
  lemma UnterminatedCopies(left: char)
    ensures Copy(Run(New(left), [Put("a"), Restart])) == "a"
    ensures Copy(New(left)) == [left]
  {
    var ops := [Put("a"), Restart];
    var s := Write(New(left), "a");
    assert s.text == "a";
    assert ops[1..] == [Restart] && [Restart][1..] == [];
    assert Run(New(left), ops) == Run(s, [Restart]) == Run(Reset(s), []) == Reset(s);
    assert Copy(Reset(s)) == "" + ['a'];
  }

  // ----- columns of streams -----

  /** `fill_to(col)` ends at the larger of the old column and col exactly when the stream has room for the
      blanks, as an owning one always has; a fixed one stops where its buffer does. */
  lemma FillToColumn(s: Stream, col: int)
    requires |s.text| < s.size
    ensures var want := if col > s.position then col - s.position else 0;
            var room := s.size - |s.text| - 1;
            && FillTo(s, col).position == s.position + (if s.owns || want <= room then want else room)
            && (FillTo(s, col).position == (if col > s.position then col else s.position) <==> s.owns || want <= room)
  {
    if col > s.position {
      var n := col - s.position;
      SpIsWrite(s, n);
      var a := Accepted(s, Spaces(n));
      assert a == Spaces(|a|);
      ColumnSpaces(s.position, |a|);
    }
  }

  /** After `cr()` the column is 0; it is the column of the accepted text exactly when the newline was kept
      or that text was at column 0 anyway. */
  lemma CrColumn(s: Stream)
    requires |s.text| < s.size && s.position == Column(0, s.history)
    ensures Cr(s).position == 0
    ensures Cr(s).position == Column(0, Cr(s).history) <==> s.owns || |s.text| + 1 < s.size || s.position == 0
  {
    if s.owns || |s.text| + 1 < s.size {
      ColumnLastLine(0, s.history, "");
      assert s.history + "\n" + "" == s.history + "\n";
    } else {
      assert Accepted(s, "\n") == "";
      assert s.history + "" == s.history;
    }
  }

  // ----- the column over runs -----

  /** Is the call a newline that the buffer has no room for? */
  predicate LosesNewline(s: Stream, op: TextOp) {
    (op.NewLine? || (op.LineStart? && s.position > 0)) && Refused(s, "\n")
  }

  /** One call moves the column by the text that the stream accepts, but for a lost newline, which puts it at 0
      and has nothing accepted. */
  lemma ColumnStep(s: Stream, op: TextOp)
    requires |s.text| < s.size
    ensures s.history <= Do(s, op).history
    ensures LosesNewline(s, op) ==> Do(s, op).position == 0 && Do(s, op).history == s.history
    ensures !LosesNewline(s, op) ==> Do(s, op).position == Column(s.position, Do(s, op).history[|s.history|..])
  {
    var a := Accepted(s, TextAt(s.position, op));
    assert (s.history + a)[|s.history|..] == a;
    match op
    case Put(str) =>
    case Blanks(n) => SpIsWrite(s, if n > 0 then n else 0);
    case Fill(col) => SpIsWrite(s, if col > s.position then col - s.position else 0);
    case Restart => assert s.history[|s.history|..] == "";
    case NewLine => NewLineColumn(s);
    case LineStart =>
      assert s.history[|s.history|..] == "";
      NewLineColumn(s);
  }

  lemma NewLineColumn(s: Stream)
    requires |s.text| < s.size
    ensures Cr(s).position == 0 && Cr(s).history == s.history + Accepted(s, "\n")
    ensures if Refused(s, "\n") then Accepted(s, "\n") == "" else Accepted(s, "\n") == "\n"
    ensures Column(s.position, "\n") == 0
  {
    assert Column(s.position, "\n") == Column(0, "");
  }

  /** How much text had been accepted when the last newline was lost; k if none is. */
  function LostAfter(k: nat, s: Stream, ops: seq<TextOp>): nat
    requires |s.text| < s.size
    decreases |ops|
  {
    if ops == [] then k
    else LostAfter(if LosesNewline(s, ops[0]) then |s.history| else k, Do(s, ops[0]), ops[1..])
  }

  /** Over every run, of owning and fixed streams alike: the column is that of the text accepted since the last
      newline was lost. */
  lemma {:induction false} ColumnRun(s: Stream, k: nat, ops: seq<TextOp>)
    requires |s.text| < s.size && k <= |s.history| && s.position == Column(0, s.history[k..])
    ensures var r := Run(s, ops);
            LostAfter(k, s, ops) <= |r.history| && r.position == Column(0, r.history[LostAfter(k, s, ops)..])
    decreases |ops|
  {
    if ops != [] {
      var v := Do(s, ops[0]);
      ColumnStep(s, ops[0]);
      if LosesNewline(s, ops[0]) {
        assert v.history[|s.history|..] == "";
        ColumnRun(v, |s.history|, ops[1..]);
      } else {
        var x := v.history[|s.history|..];
        assert v.history[k..] == s.history[k..] + x;
        ColumnSplit(0, s.history[k..], x);
        ColumnRun(v, k, ops[1..]);
      }
    }
  }

  /** Do two columns become one on the way through the text? They do at a newline, or at the first tab if it
      takes both to the same stop. */
  predicate Meet(p: nat, q: nat, x: string)
    decreases |x|
  {
    || p == q
    || (x != "" && (x[0] == '\n' || if x[0] == '\t' then p / 8 == q / 8 || '\n' in x else Meet(p + 1, q + 1, x[1..])))
  }

  /** Two tab stops stay apart until a newline. */
  lemma {:induction false} StopsApart(p: nat, q: nat, x: string)
    requires p < q && (q - p) % 8 == 0
    ensures Column(p, x) == Column(q, x) <==> '\n' in x
    decreases |x|
  {
    if x != "" {
      if x[0] == '\t' {
        assert q == p + 8 * ((q - p) / 8);
        StopsApart(Next(p, x[0]), Next(q, x[0]), x[1..]);
      } else if x[0] != '\n' {
        StopsApart(p + 1, q + 1, x[1..]);
      }
      assert '\n' in x <==> x[0] == '\n' || '\n' in x[1..];
    }
  }

  lemma {:induction false} MeetExactly(p: nat, q: nat, x: string)
    requires p <= q
    ensures Column(p, x) == Column(q, x) <==> Meet(p, q, x)
    decreases |x|
  {
    if p < q && x != "" {
      if x[0] == '\t' {
        var a, b := Next(p, x[0]), Next(q, x[0]);
        assert '\n' in x <==> '\n' in x[1..];
        if a < b {
          StopsApart(a, b, x[1..]);
        }
      } else if x[0] != '\n' {
        MeetExactly(p + 1, q + 1, x[1..]);
      }
    }
  }

  /** When the column of a stream, new at first, is that of all the text it has accepted: if no newline was lost;
      else exactly if the column at the last loss was 0 or has met column 0 in the text accepted since. */
  lemma ColumnRunExactly(s: Stream, ops: seq<TextOp>)
    requires |s.text| < s.size && s.history == "" && s.position == 0
    ensures var r, k := Run(s, ops), LostAfter(0, s, ops);
            k <= |r.history| &&
            (r.position == Column(0, r.history) <==> Meet(0, Column(0, r.history[..k]), r.history[k..]))
  {
    ColumnRun(s, 0, ops);
    var r, k := Run(s, ops), LostAfter(0, s, ops);
    assert r.history == r.history[..k] + r.history[k..];
    ColumnSplit(0, r.history[..k], r.history[k..]);
    MeetExactly(0, Column(0, r.history[..k]), r.history[k..]);
  }

  /** A full fixed stream shows the difference. */
  lemma CrOnFullStream()
    ensures var s := Write(Stream("", 3, false, 0, "", '\0'), "ab");
            s.position == 2 == Column(0, s.history) && Cr(s).position == 0 && Column(0, Cr(s).history) == 2
  {
    var s := Write(Stream("", 3, false, 0, "", '\0'), "ab");
    assert s.history == "ab";
    assert Column(0, "ab") == Column(1, "b") == Column(2, "");
    assert Cr(s).history == "ab";
  }
}
