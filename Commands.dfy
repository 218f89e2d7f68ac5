/** `loadCommands`: the command script read with formatted extraction from an input
    stream. The stream is modelled as the characters not yet consumed plus its fail
    flag; `>>` into a `char` and into an `int` follow the C++ library's rules (skip
    white space; at end of input fail and leave the variable alone; an int with no
    digits reads as 0 and fails; one outside 32 bits is clamped and fails). */
module Commands {
  import opened Protocol

  const INT_MIN: int := -0x8000_0000
  const INT_MAX: int := 0x7fff_ffff

  predicate InRange(x: int) { INT_MIN <= x <= INT_MAX }

  datatype Option<T> = None | Some(value: T)

  /** The characters the C locale treats as white space. */
  predicate IsSpace(c: char)
  {
    c == ' ' || c == '\t' || c == '\n' || c == '\U{000B}' || c == '\U{000C}' || c == '\r'
  }

  predicate IsDigit(c: char) { '0' <= c <= '9' }

  predicate AllDigits(d: seq<char>) { forall k | 0 <= k < |d| :: IsDigit(d[k]) }

  predicate AllSpace(w: seq<char>) { forall k | 0 <= k < |w| :: IsSpace(w[k]) }

  /** An input stream: what is left to read and whether failbit is set. */
  datatype Istream = Istream(rest: seq<char>, failed: bool)

  /** Leading white space removed. */
  function SkipSpace(s: seq<char>): (r: seq<char>)
    ensures |r| <= |s|
    ensures r == [] || !IsSpace(r[0])
  {
    if s != [] && IsSpace(s[0]) then SkipSpace(s[1..]) else s
  }

  /** The length of the run of decimal digits that `s` starts with. */
  function DigitRun(s: seq<char>): (n: nat)
    ensures n <= |s| && AllDigits(s[..n])
    ensures n == |s| || !IsDigit(s[n])
  {
    if s != [] && IsDigit(s[0]) then 1 + DigitRun(s[1..]) else 0
  }

  /** The number a string of decimal digits denotes, most significant first. */
  function DigitsValue(d: seq<char>): nat
    requires AllDigits(d)
  {
    if d == [] then 0 else DigitsValue(d[..|d| - 1]) * 10 + (d[|d| - 1] as int - '0' as int)
  }

  function Clamp(x: int): (r: int)
    ensures InRange(r) && (InRange(x) <==> r == x)
  {
    if x < INT_MIN then INT_MIN else if x > INT_MAX then INT_MAX else x
  }

  /** `in >> op` for a `char`: the next non-blank character, or failure at end of input. */
  function ExtractChar(s: Istream): (r: (Istream, Option<char>))
    ensures r.1.Some? <==> !r.0.failed
    ensures r.1.Some? ==> !IsSpace(r.1.value) && |r.0.rest| < |s.rest|
    ensures |r.0.rest| <= |s.rest|
  {
    if s.failed then (s, None)
    else
      var t := SkipSpace(s.rest);
      if t == [] then (Istream(t, true), None) else (Istream(t[1..], false), Some(t[0]))
  }

  /** The numeric conversion of `in >> x` once white space is skipped and input remains:
      an optional sign and a run of digits; no digits gives 0 and fails, a value outside
      32 bits is clamped and fails. */
  function ConvertInt(t: seq<char>): (r: (Istream, int))
    requires t != []
    ensures |r.0.rest| <= |t| && InRange(r.1)
  {
    var body := if t[0] == '-' || t[0] == '+' then t[1..] else t;
    var n := DigitRun(body);
    if n == 0 then (Istream(body, true), 0)
    else
      var magnitude: int := DigitsValue(body[..n]);
      var x := if t[0] == '-' then -magnitude else magnitude;
      (Istream(body[n..], !InRange(x)), Clamp(x))
  }

  /** `in >> x` for an `int` whose current value is `prev`. */
  function ExtractInt(s: Istream, prev: int): (r: (Istream, int))
    ensures |r.0.rest| <= |s.rest|
    ensures r.1 == prev || InRange(r.1)
    ensures s.failed ==> r == (s, prev)
  {
    if s.failed then (s, prev)
    else
      var t := SkipSpace(s.rest);
      if t == [] then (Istream(t, true), prev) else ConvertInt(t)
  }

  /** One command read by the loop body of `loadCommands`, with the stream and the
      two int variables after it. */
  datatype Parsed = Parsed(cmd: Command, rest: Istream, b: int, v: int)

  /** One iteration of the loop of `loadCommands` from stream `s`, the int variables
      holding `b` and `v`: None when `in >> op` fails and the loop ends; otherwise an
      'R' command with one int, or a command of any other op with two. */
  function ParseOne(s: Istream, b: int, v: int): (r: Option<Parsed>)
    ensures r.Some? ==> |r.value.rest.rest| < |s.rest|
    ensures r.Some? ==>
      !IsSpace(r.value.cmd.op) &&
      r.value.cmd.args == (if r.value.cmd.op == 'R' then [r.value.b] else [r.value.b, r.value.v])
    ensures r.Some? && r.value.cmd.op == 'R' ==> r.value.v == v
    ensures r.Some? && InRange(b) && InRange(v) ==> InRange(r.value.b) && InRange(r.value.v)
  {
    var afterOp := ExtractChar(s);
    if afterOp.1.None? then None
    else
      var op := afterOp.1.value;
      var afterB := ExtractInt(afterOp.0, b);
      if op == 'R' then Some(Parsed(Command(op, [afterB.1]), afterB.0, afterB.1, v))
      else
        var afterV := ExtractInt(afterB.0, v);
        Some(Parsed(Command(op, [afterB.1, afterV.1]), afterV.0, afterB.1, afterV.1))
  }

  /** Every command `loadCommands` collects from stream `s`, given the values `b` and
      `v` the two int variables hold on entry: one command per op token read, in input
      order, until the stream fails. */
  function Parse(s: Istream, b: int, v: int): (r: seq<Command>)
    decreases |s.rest|
    ensures forall k | 0 <= k < |r| ::
      !IsSpace(r[k].op) && |r[k].args| == (if r[k].op == 'R' then 1 else 2)
    ensures InRange(b) && InRange(v) ==>
      forall k, j | 0 <= k < |r| && 0 <= j < |r[k].args| :: InRange(r[k].args[j])
  {
    match ParseOne(s, b, v)
    case None => []
    case Some(p) => [p.cmd] + Parse(p.rest, p.b, p.v)
  }

  /** `loadCommands(path)` on a file holding `text`; `b0` and `v0` stand for whatever the
      uninitialised locals `b` and `v` hold before the first extraction. */
  method LoadCommands(text: seq<char>, b0: int, v0: int) returns (commands: seq<Command>)
    ensures commands == Parse(Istream(text, false), b0, v0)
  {
    commands := [];
    var input := Istream(text, false);
    var b, v := b0, v0;
    while true
      invariant commands + Parse(input, b, v) == Parse(Istream(text, false), b0, v0)
      decreases |input.rest|
    {
      ghost var before, b1, v1 := input, b, v;
      var afterOp := ExtractChar(input);
      if afterOp.1.None? {
        assert Parse(before, b1, v1) == [] by { ParseOneSteps(before, b1, v1); }
        break;
      }
      var op := afterOp.1.value;
      var afterB := ExtractInt(afterOp.0, b);
      var cmd;
      if op == 'R' {
        input, b := afterB.0, afterB.1;
        cmd := Command(op, [b]);
      } else {
        var afterV := ExtractInt(afterB.0, v);
        input, b, v := afterV.0, afterB.1, afterV.1;
        cmd := Command(op, [b, v]);
      }
      assert Parse(before, b1, v1) == [cmd] + Parse(input, b, v) by { ParseOneSteps(before, b1, v1); }
      commands := commands + [cmd];
    }
  }

  /** ParseOne as the sequence of extractions the loop body performs. */
  lemma ParseOneSteps(s: Istream, b: int, v: int)
    ensures ExtractChar(s).1.None? ==> ParseOne(s, b, v).None?
    ensures ExtractChar(s).1.Some? ==>
      var op := ExtractChar(s).1.value;
      var afterB := ExtractInt(ExtractChar(s).0, b);
      var afterV := ExtractInt(afterB.0, v);
      ParseOne(s, b, v) ==
        if op == 'R' then Some(Parsed(Command(op, [afterB.1]), afterB.0, afterB.1, v))
        else Some(Parsed(Command(op, [afterB.1, afterV.1]), afterV.0, afterB.1, afterV.1))
  {
  }

  // ---------------------------------------------------------------------------
  // The script format, written out, and reading it back

  /** The decimal digits of `n`, most significant first, without leading zeros. */
  function NatDigits(n: nat): (d: seq<char>)
    ensures |d| >= 1 && AllDigits(d) && DigitsValue(d) == n
  {
    if n < 10 then [('0' as int + n) as char]
    else
      var d := NatDigits(n / 10) + [('0' as int + n % 10) as char];
      assert d[..|d| - 1] == NatDigits(n / 10);
      d
  }

  /** How `<<` writes an int. */
  function IntText(x: int): (t: seq<char>)
  {
    if x < 0 then ['-'] + NatDigits(-x) else NatDigits(x)
  }

  /** A command that can be written as one script line and read back. */
  predicate Writable(c: Command)
  {
    !IsSpace(c.op) && |c.args| == (if c.op == 'R' then 1 else 2) &&
    forall j | 0 <= j < |c.args| :: InRange(c.args[j])
  }

  /** One script line: `R <block>` or `<op> <block> <value>`. */
  function Line(c: Command): seq<char>
    requires Writable(c)
  {
    [c.op] + [' '] + IntText(c.args[0]) +
    (if c.op == 'R' then [] else [' '] + IntText(c.args[1])) + ['\n']
  }

  function Script(cs: seq<Command>): seq<char>
    requires forall k | 0 <= k < |cs| :: Writable(cs[k])
  {
    if cs == [] then [] else Line(cs[0]) + Script(cs[1..])
  }

  lemma {:induction false} SkipSpaceOver(w: seq<char>, t: seq<char>)
    requires AllSpace(w)
    requires t == [] || !IsSpace(t[0])
    ensures SkipSpace(w + t) == t
  {
    if w != [] {
      assert (w + t)[1..] == w[1..] + t;
      SkipSpaceOver(w[1..], t);
    }
  }

  lemma {:induction false} DigitRunOver(d: seq<char>, t: seq<char>)
    requires AllDigits(d)
    requires t == [] || !IsDigit(t[0])
    ensures DigitRun(d + t) == |d|
  {
    if d != [] {
      assert (d + t)[1..] == d[1..] + t;
      DigitRunOver(d[1..], t);
    }
  }

  /** Converting the text `<<` writes for an in-range int gives the int back, without
      failing, and stops right before the next non-digit. */
  lemma ConvertIntText(x: int, tail: seq<char>)
    requires InRange(x)
    requires tail != [] && !IsDigit(tail[0])
    ensures ConvertInt(IntText(x) + tail) == (Istream(tail, false), x)
  {
    var t := IntText(x) + tail;
    var d := if x < 0 then NatDigits(-x) else NatDigits(x);
    var body := if t[0] == '-' || t[0] == '+' then t[1..] else t;
    if x < 0 {
      assert t == ['-'] + (d + tail);
    } else {
      assert IsDigit(d[0]) && t[0] == d[0];
    }
    assert body == d + tail;
    DigitRunOver(d, tail);
    assert body[..|d|] == d;
    assert body[|d|..] == tail;
  }

  /** Reading an int written by `<<`, after one blank, gives it back. */
  lemma ExtractIntText(x: int, tail: seq<char>, prev: int)
    requires InRange(x)
    requires tail != [] && !IsDigit(tail[0])
    ensures ExtractInt(Istream([' '] + IntText(x) + tail, false), prev) == (Istream(tail, false), x)
  {
    var t := IntText(x) + tail;
    assert [' '] + IntText(x) + tail == [' '] + t;
    assert t[0] == IntText(x)[0];
    SkipSpaceOver([' '], t);
    ConvertIntText(x, tail);
  }

  /** Reading the op character of a line after leading white space. */
  lemma ExtractOp(w: seq<char>, op: char, after: seq<char>)
    requires AllSpace(w) && !IsSpace(op)
    ensures ExtractChar(Istream(w + ([op] + after), false)) == (Istream(after, false), Some(op))
  {
    SkipSpaceOver(w, [op] + after);
  }

  /** Reading one written line back: the command, and the stream left at the newline. */
  lemma ParseLine(w: seq<char>, c: Command, more: seq<char>, b: int, v: int)
    requires AllSpace(w) && Writable(c)
    ensures ParseOne(Istream(w + Line(c) + more, false), b, v) ==
      Some(Parsed(c, Istream(['\n'] + more, false), c.args[0], if c.op == 'R' then v else c.args[1]))
  {
    var newline := ['\n'] + more;
    var text := w + Line(c) + more;
    if c.op == 'R' {
      var afterOp := [' '] + IntText(c.args[0]) + newline;
      assert Line(c) == [c.op] + [' '] + IntText(c.args[0]) + ['\n'];
      assert text == w + ([c.op] + afterOp);
      ExtractOp(w, c.op, afterOp);
      ExtractIntText(c.args[0], newline, b);
      assert c.args == [c.args[0]];
    } else {
      var tail := [' '] + IntText(c.args[1]) + newline;
      var afterOp := [' '] + IntText(c.args[0]) + tail;
      assert text == w + ([c.op] + afterOp);
      ExtractOp(w, c.op, afterOp);
      ExtractIntText(c.args[0], tail, b);
      ExtractIntText(c.args[1], newline, v);
      assert c.args == [c.args[0], c.args[1]];
    }
  }

  lemma ScriptFirstLine(w: seq<char>, cs: seq<Command>)
    requires cs != [] && forall k | 0 <= k < |cs| :: Writable(cs[k])
    ensures w + Script(cs) == w + Line(cs[0]) + Script(cs[1..])
  {
    var line, more := Line(cs[0]), Script(cs[1..]);
    assert Script(cs) == line + more;
    Associate(w, line, more);
  }

  lemma Associate(a: seq<char>, b: seq<char>, c: seq<char>)
    ensures a + (b + c) == a + b + c
  {
  }

  /** Round trip: reading a script written from writable commands, after any leading
      white space, yields exactly those commands in order, whatever `b` and `v` held. */
  lemma {:induction false} ParseScript(w: seq<char>, cs: seq<Command>, b: int, v: int)
    requires AllSpace(w)
    requires forall k | 0 <= k < |cs| :: Writable(cs[k])
    ensures Parse(Istream(w + Script(cs), false), b, v) == cs
    decreases |cs|
  {
    if cs == [] {
      assert w + Script(cs) == w + [];
      SkipSpaceOver(w, []);
    } else {
      var c := cs[0];
      var more := Script(cs[1..]);
      ScriptFirstLine(w, cs);
      ParseLine(w, c, more, b, v);
      ParseScript(['\n'], cs[1..], c.args[0], if c.op == 'R' then v else c.args[1]);
    }
  }

  /** The form the command generator writes: one line per command. */
  lemma LoadGeneratedScript(cs: seq<Command>, b0: int, v0: int)
    requires forall k | 0 <= k < |cs| :: Writable(cs[k])
    ensures Parse(Istream(Script(cs), false), b0, v0) == cs
  {
    assert [] + Script(cs) == Script(cs);
    ParseScript([], cs, b0, v0);
  }

  // ---------------------------------------------------------------------------
  // What the loop makes of malformed input

  /** A write cut off after its block still yields a command, carrying the value the
      variable `v` held from before. */
  lemma TruncatedWriteKeepsValue(b: int, v: int)
    ensures Parse(Istream("R 5 W", false), b, v) == [Command('R', [5]), Command('W', [5, v])]
  {
    assert ExtractChar(Istream("R 5 W", false)) == (Istream(" 5 W", false), Some('R'));
    assert SkipSpace(" 5 W") == "5 W";
    assert DigitRun("5 W") == 1;
    assert DigitsValue("5") == 5;
    assert ExtractInt(Istream(" 5 W", false), b) == (Istream(" W", false), 5);
    assert ExtractChar(Istream(" W", false)) == (Istream([], false), Some('W'));
    assert ExtractInt(Istream([], false), 5) == (Istream([], true), 5);
    assert ExtractChar(Istream([], true)).1 == None;
  }

  /** A block that is not a number reads as 0, fails the stream and ends the script. */
  lemma NonNumericBlockEndsScript(b: int, v: int)
    ensures Parse(Istream("R x\nR 1", false), b, v) == [Command('R', [0])]
  {
    assert ExtractChar(Istream("R x\nR 1", false)) == (Istream(" x\nR 1", false), Some('R'));
    assert SkipSpace(" x\nR 1") == "x\nR 1";
    assert DigitRun("x\nR 1") == 0;
    assert ExtractInt(Istream(" x\nR 1", false), b) == (Istream("x\nR 1", true), 0);
  }
}
