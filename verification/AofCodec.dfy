/**
 The append-only log format: the encoder of aof.c, the parse loop that loads a
 log, and what loading does to any prefix of an encoded log. Byte strings are
 Dafny strings with one character a byte.
 */
module AofCodec {
  type Bytes = string
  type Cmd = seq<Bytes>

  const CRLF: Bytes := "\r\n"
  const LINE_MAX: nat := 127

  // Encoding.

  function DigitChar(d: nat): (c: char)
    requires d < 10
    ensures IsDigit(c) && DigitVal(c) == d
  {
    '0' + d as char
  }

  predicate IsDigit(c: char) {
    '0' <= c <= '9'
  }

  function DigitVal(c: char): (d: nat)
    requires IsDigit(c)
    ensures d < 10
  {
    (c - '0') as nat
  }

  /** `ll2string` on non-negative numbers. */
  function Digits(n: nat): (s: Bytes)
    ensures s != "" && forall i :: 0 <= i < |s| ==> IsDigit(s[i])
  {
    if n < 10 then [DigitChar(n)] else Digits(n / 10) + [DigitChar(n % 10)]
  }

  function EncodeArgs(args: seq<Bytes>): Bytes {
    if args == [] then ""
    else "$" + Digits(|args[0]|) + CRLF + args[0] + CRLF + EncodeArgs(args[1..])
  }

  /** `catAppendOnlyGenericCommand` on an empty destination. */
  function Encode(c: Cmd): Bytes {
    "*" + Digits(|c|) + CRLF + EncodeArgs(c)
  }

  function EncodeAll(cs: seq<Cmd>): Bytes {
    if cs == [] then "" else Encode(cs[0]) + EncodeAll(cs[1..])
  }

  /** `catAppendOnlyGenericCommand`. */
  method CatCommand(dst: Bytes, c: Cmd) returns (r: Bytes)
    ensures r == dst + Encode(c)
  {
    hide Digits;
    r := dst + ("*" + Digits(|c|) + CRLF);
    var j := 0;
    while j < |c|
      invariant 0 <= j <= |c| && r + EncodeArgs(c[j..]) == dst + Encode(c)
    {
      var o := c[j];
      EncodeArgsStep(r, c, j);
      r := r + ("$" + Digits(|o|) + CRLF);
      r := r + o;
      r := r + CRLF;
      j := j + 1;
    }
    assert r + "" == r;
  }

  lemma EncodeArgsStep(r: Bytes, c: Cmd, j: nat)
    requires j < |c|
    ensures r + ("$" + Digits(|c[j]|) + CRLF) + c[j] + CRLF + EncodeArgs(c[j + 1..]) == r + EncodeArgs(c[j..])
  {
    hide Digits;
    assert c[j..][1..] == c[j + 1..];
    var h, o, t := "$" + Digits(|c[j]|) + CRLF, c[j], EncodeArgs(c[j + 1..]);
    assert EncodeArgs(c[j..]) == h + o + CRLF + t;
    assert r + h + o + CRLF + t == r + (h + o + CRLF + t);
  }

  /** What C integers can hold: the argument count is an int, lengths are longs. */
  predicate Representable(c: Cmd) {
    && 1 <= |c| < 0x8000_0000
    && forall i :: 0 <= i < |c| ==> |c[i]| < 0x8000_0000_0000_0000
  }

  // Reading.

  /** Length of what `fgets` returns: up to a newline, the buffer or the end. */
  function LineLen(r: Bytes, limit: nat): (n: nat)
    ensures n <= |r|
    ensures r != "" && limit > 0 ==> n > 0
    decreases limit
  {
    if r == "" || limit == 0 then 0 else if r[0] == '\n' then 1 else 1 + LineLen(r[1..], limit - 1)
  }

  predicate IsSpace(c: char) {
    c == ' ' || '\t' <= c <= '\r'
  }

  function DigitsVal(s: Bytes, acc: nat): (n: nat)
    ensures n >= acc
    decreases |s|
  {
    if s == "" || !IsDigit(s[0]) then acc else DigitsVal(s[1..], 10 * acc + DigitVal(s[0]))
  }

  /** `strtol` in base ten: blanks, a sign, digits. */
  function Strtol(s: Bytes): int {
    if s == "" then 0
    else if IsSpace(s[0]) then Strtol(s[1..])
    else if s[0] == '-' then -(DigitsVal(s[1..], 0) as int)
    else if s[0] == '+' then DigitsVal(s[1..], 0)
    else DigitsVal(s, 0)
  }

  datatype Fault = Short | Bad | Unreadable | Huge

  datatype Read<T> = Got(value: T, rest: Bytes) | Failed(fault: Fault)

  /** One argument: a `$len` line, `len` bytes, two discarded bytes. A negative
      length asks for more memory than there is. */
  function ParseArg(r: Bytes): (a: Read<Bytes>)
    ensures a.Got? ==> |a.rest| < |r| && a.rest == r[|r| - |a.rest|..]
  {
    if r == "" then Failed(Short)
    else if r[0] != '$' then Failed(Bad)
    else
      var k := LineLen(r, LINE_MAX);
      var len := Strtol(r[1..k]);
      if len < 0 then Failed(Huge)
      else if |r| - k < len + 2 then Failed(Short)
      else Got(r[k..k + len], r[k + len + 2..])
  }

  function ParseArgs(r: Bytes, n: nat): (a: Read<seq<Bytes>>)
    ensures a.Got? ==> |a.rest| <= |r| && |a.value| == n
    decreases n
  {
    if n == 0 then Got([], r)
    else
      match ParseArg(r)
      case Failed(f) => Failed(f)
      case Got(arg, rest) => Prepend([arg], ParseArgs(rest, n - 1))
  }

  function Prepend(args: seq<Bytes>, a: Read<seq<Bytes>>): Read<seq<Bytes>> {
    match a
    case Got(as', rest) => Got(args + as', rest)
    case Failed(f) => Failed(f)
  }

  /** The line that opens a command, from a non-empty rest of the file. */
  function ParseCount(r: Bytes): (a: Read<nat>)
    requires r != ""
    ensures a.Got? ==> |a.rest| < |r| && a.rest == r[|r| - |a.rest|..] && a.value >= 1
  {
    var k := LineLen(r, LINE_MAX);
    if r[0] != '*' then Failed(Bad)
    else if k == 1 || r[1] == '\0' then
      Failed(if k == |r| && k < LINE_MAX && r[k - 1] != '\n' then Short else Unreadable)
    else
      var argc := Strtol(r[1..k]);
      if argc < 1 then Failed(Bad) else Got(argc, r[k..])
  }

  function ParseOne(r: Bytes): (a: Read<Cmd>)
    requires r != ""
    ensures a.Got? ==> |a.rest| < |r|
  {
    match ParseCount(r)
    case Failed(f) => Failed(f)
    case Got(argc, rest) => ParseArgs(rest, argc)
  }

  /** How loading ends, with the commands replayed so far. */
  datatype Load =
    | Loaded(cmds: seq<Cmd>)
    | Truncated(cmds: seq<Cmd>, validUpTo: nat)
    | Refused(cmds: seq<Cmd>, fault: Fault)

  function Stop(f: Fault, cmds: seq<Cmd>, validUpTo: nat): Load {
    if f == Short then Truncated(cmds, validUpTo) else Refused(cmds, f)
  }

  function LoadFrom(r: Bytes, off: nat, cmds: seq<Cmd>): Load
    decreases |r|
  {
    if r == "" then Loaded(cmds)
    else
      match ParseOne(r)
      case Got(c, rest) => LoadFrom(rest, off + |r| - |rest|, cmds + [c])
      case Failed(f) => Stop(f, cmds, off)
  }

  // The parse loop.

  lemma Slices(b: Bytes, i: nat, j: nat, k: nat)
    requires i <= |b| && j <= k <= |b| - i
    ensures b[i..][j..] == b[i + j..] && b[i..][j..k] == b[i + j..i + k]
  {
  }

  method Gets(b: Bytes, pos: nat) returns (k: nat)
    requires pos <= |b|
    ensures k == LineLen(b[pos..], LINE_MAX)
  {
    hide LineLen;
    k := 0;
    while k < LINE_MAX && pos + k < |b|
      invariant 0 <= k <= LINE_MAX && pos + k <= |b|
      invariant k + LineLen(b[pos + k..], LINE_MAX - k) == LineLen(b[pos..], LINE_MAX)
    {
      LineLenStep(b, pos + k, LINE_MAX - k);
      if b[pos + k] == '\n' { return k + 1; }
      k := k + 1;
    }
    LineLenEnd(b[pos + k..], LINE_MAX - k);
  }

  lemma LineLenStep(b: Bytes, i: nat, limit: nat)
    requires i < |b| && limit > 0
    ensures LineLen(b[i..], limit) == if b[i] == '\n' then 1 else 1 + LineLen(b[i + 1..], limit - 1)
  {
    Slices(b, i, 1, 1);
  }

  lemma LineLenEnd(r: Bytes, limit: nat)
    requires r == "" || limit == 0
    ensures LineLen(r, limit) == 0
  {
  }

  /** `next` is the file position after a successful read. */
  method ReadArg(b: Bytes, pos: nat) returns (a: Read<Bytes>, next: nat)
    requires pos <= |b|
    ensures a == ParseArg(b[pos..])
    ensures a.Got? ==> pos < next <= |b| && a.rest == b[next..]
  {
    hide LineLen, Strtol;
    next := pos;
    var k := Gets(b, pos);
    if pos == |b| { return Failed(Short), pos; }
    if b[pos] != '$' { return Failed(Bad), pos; }
    Slices(b, pos, 1, k);
    var len := Strtol(b[pos + 1..pos + k]);
    if len < 0 { return Failed(Huge), pos; }
    if |b| - pos - k < len { return Failed(Short), pos; }
    if |b| - pos - k - len < 2 { return Failed(Short), pos; }
    Slices(b, pos, k, k + len);
    next := pos + k + len + 2;
    Slices(b, pos, k + len + 2, k + len + 2);
    a := Got(b[pos + k..pos + k + len], b[next..]);
  }

  method ReadArgs(b: Bytes, start: nat, n: nat) returns (a: Read<seq<Bytes>>, pos: nat)
    requires start <= |b|
    ensures a == ParseArgs(b[start..], n)
    ensures a.Got? ==> start <= pos <= |b| && a.rest == b[pos..]
  {
    hide ParseArg;
    pos := start;
    var j: nat, args: seq<Bytes> := 0, [];
    PrependNone(ParseArgs(b[start..], n));
    while j < n
      invariant j <= n && start <= pos <= |b|
      invariant ParseArgs(b[start..], n) == Prepend(args, ParseArgs(b[pos..], n - j))
    {
      var x, next := ReadArg(b, pos);
      if x.Failed? { return Failed(x.fault), pos; }
      PrependSnoc(args, x.value, ParseArgs(x.rest, n - j - 1));
      args := args + [x.value];
      pos := next;
      j := j + 1;
    }
    assert args + [] == args;
    a := Got(args, b[pos..]);
  }

  lemma PrependNone(a: Read<seq<Bytes>>)
    ensures Prepend([], a) == a
  {
    if a.Got? { assert [] + a.value == a.value; }
  }

  lemma PrependSnoc(args: seq<Bytes>, arg: Bytes, a: Read<seq<Bytes>>)
    ensures Prepend(args, Prepend([arg], a)) == Prepend(args + [arg], a)
  {
    if a.Got? { assert args + ([arg] + a.value) == args + [arg] + a.value; }
  }

  method ReadCount(b: Bytes, pos: nat) returns (a: Read<nat>, next: nat)
    requires pos < |b|
    ensures a == ParseCount(b[pos..])
    ensures a.Got? ==> pos < next <= |b| && a.rest == b[next..]
  {
    hide LineLen, Strtol;
    next := pos;
    var k := Gets(b, pos);
    if b[pos] != '*' { return Failed(Bad), pos; }
    if k == 1 || b[pos + 1] == '\0' {
      return Failed(if pos + k == |b| && k < LINE_MAX && b[pos + k - 1] != '\n' then Short else Unreadable), pos;
    }
    Slices(b, pos, 1, k);
    Slices(b, pos, k, k);
    var argc := Strtol(b[pos + 1..pos + k]);
    if argc < 1 { return Failed(Bad), pos; }
    next := pos + k;
    a := Got(argc, b[next..]);
  }

  /** The main loop of `loadAppendOnlyFile`. */
  method LoadLog(b: Bytes) returns (r: Load)
    ensures r == LoadFrom(b, 0, [])
  {
    hide ParseCount, ParseArgs;
    var pos: nat, cmds: seq<Cmd>, validUpTo: nat := 0, [], 0;
    assert b[0..] == b;
    while pos < |b|
      invariant pos <= |b| && validUpTo == pos && LoadFrom(b[pos..], pos, cmds) == LoadFrom(b, 0, [])
      decreases |b| - pos
    {
      var n, next := ReadCount(b, pos);
      if n.Failed? { return Stop(n.fault, cmds, validUpTo); }
      var c, after := ReadArgs(b, next, n.value);
      if c.Failed? { return Stop(c.fault, cmds, validUpTo); }
      cmds := cmds + [c.value];
      pos := after;
      validUpTo := pos;
    }
    r := Loaded(cmds);
  }

  // Round trip and truncation.

  lemma {:induction false} DigitsValPrefix(d: Bytes, t: Bytes, acc: nat)
    requires (forall i :: 0 <= i < |d| ==> IsDigit(d[i])) && (t == "" || !IsDigit(t[0]))
    ensures DigitsVal(d + t, acc) == DigitsVal(d, acc)
    decreases |d|
  {
    if d == "" {
      assert d + t == t;
    } else {
      assert (d + t)[1..] == d[1..] + t;
      DigitsValPrefix(d[1..], t, 10 * acc + DigitVal(d[0]));
    }
  }

  lemma {:induction false} DigitsValSnoc(d: Bytes, c: char, acc: nat)
    requires (forall i :: 0 <= i < |d| ==> IsDigit(d[i])) && IsDigit(c)
    ensures DigitsVal(d + [c], acc) == 10 * DigitsVal(d, acc) + DigitVal(c)
    decreases |d|
  {
    if d == "" {
      assert d + [c] == [c] && [c][1..] == "";
    } else {
      assert (d + [c])[1..] == d[1..] + [c];
      DigitsValSnoc(d[1..], c, 10 * acc + DigitVal(d[0]));
    }
  }

  /** Digits of `n` read back as `n`. */
  lemma {:induction false} DigitsRoundTrip(n: nat)
    ensures DigitsVal(Digits(n), 0) == n
    ensures n >= 1 ==> Digits(n)[0] != '0'
  {
    if n < 10 {
      assert Digits(n)[1..] == "";
    } else {
      DigitsRoundTrip(n / 10);
      DigitsValSnoc(Digits(n / 10), DigitChar(n % 10), 0);
    }
  }

  function Pow10(e: nat): nat {
    if e == 0 then 1 else 10 * Pow10(e - 1)
  }

  lemma {:induction false} DigitsShort(n: nat, e: nat)
    requires e >= 1 && n < Pow10(e)
    ensures |Digits(n)| <= e
  {
    assert Pow10(1) == 10 * Pow10(0);
    if n >= 10 {
      DigitsShort(n / 10, e - 1);
    }
  }

  /** A header: its mark, the digits and the line end. */
  function Header(mark: char, n: nat): Bytes {
    [mark] + Digits(n) + CRLF
  }

  lemma {:induction false} LineLenIs(r: Bytes, k: nat, limit: nat)
    requires k <= |r| && k <= limit
    requires forall i :: 0 <= i < k - 1 ==> r[i] != '\n'
    requires (k > 0 && r[k - 1] == '\n') || (k == |r| && forall i :: 0 <= i < k ==> r[i] != '\n')
    ensures LineLen(r, limit) == k
    decreases k
  {
    if k > 0 && r[0] != '\n' { LineLenIs(r[1..], k - 1, limit - 1); }
  }

  /** A complete header followed by anything is read back. */
  lemma HeaderRead(mark: char, n: nat, t: Bytes)
    requires mark != '\n' && n < Pow10(19)
    ensures var h := Header(mark, n);
            LineLen(h + t, LINE_MAX) == |h| >= 4 && Strtol((h + t)[1..|h|]) == n
  {
    hide LineLen, Digits, DigitsVal, Pow10;
    var h := Header(mark, n);
    DigitsShort(n, 19);
    LineLenIs(h + t, |h|, LINE_MAX);
    assert (h + t)[1..|h|] == Digits(n) + CRLF;
    DigitsRoundTrip(n);
    DigitsValPrefix(Digits(n), CRLF, 0);
  }

  /** A header cut short is one last line, and reads as some count, not zero for
      a positive number of which a digit is left. */
  lemma HeaderCut(mark: char, n: nat, m: nat)
    requires mark != '\n' && n < Pow10(19) && 1 <= m < |Header(mark, n)|
    ensures var p := Header(mark, n)[..m];
            && LineLen(p, LINE_MAX) == m && Strtol(p[1..m]) >= 0
            && (n >= 1 && m >= 2 ==> Strtol(p[1..m]) >= 1 && p[1] != '\0')
            && p[m - 1] != '\n'
  {
    hide LineLen, Pow10, Digits, DigitsVal;
    var d := Digits(n);
    DigitsShort(n, 19);
    var p := Header(mark, n)[..m];
    LineLenIs(p, m, LINE_MAX);
    if m >= 2 {
      var j := if m - 1 <= |d| then m - 1 else |d|;
      CutLine(mark, d, m, j);
      DigitsValPrefix(d[..j], CRLF[..m - 1 - j], 0);
      DigitsRoundTrip(n);
      if n >= 1 { LeadingDigit(d[..j]); }
    }
  }

  lemma CutLine(mark: char, d: Bytes, m: nat, j: nat)
    requires 1 <= m < 1 + |d| + |CRLF| && j == if m - 1 <= |d| then m - 1 else |d|
    ensures ([mark] + d + CRLF)[..m][1..m] == d[..j] + CRLF[..m - 1 - j]
  {
    assert [mark] + d + CRLF == [mark] + (d + CRLF);
    DropFirst(mark, d + CRLF, m);
    TakeBoth(d, CRLF, m - 1);
  }

  lemma DropFirst(mark: char, x: Bytes, m: nat)
    requires 1 <= m <= 1 + |x|
    ensures ([mark] + x)[..m][1..m] == x[..m - 1]
  {
    var a := ([mark] + x)[..m][1..m];
    forall i | 0 <= i < m - 1 ensures a[i] == x[i] {
      assert a[i] == ([mark] + x)[i + 1];
    }
  }

  lemma TakeBoth(d: Bytes, e: Bytes, k: nat)
    requires k <= |d| + |e|
    ensures var j := if k <= |d| then k else |d|; (d + e)[..k] == d[..j] + e[..k - j]
  {
  }

  lemma LeadingDigit(d: Bytes)
    requires d != "" && IsDigit(d[0]) && d[0] != '0'
    ensures DigitsVal(d, 0) >= 1
  {
  }

  function EncodeArg(a: Bytes): Bytes {
    Header('$', |a|) + a + CRLF
  }

  lemma ArgsAreArgs(args: seq<Bytes>)
    requires args != []
    ensures EncodeArgs(args) == EncodeArg(args[0]) + EncodeArgs(args[1..])
  {
  }

  lemma Bounds()
    ensures 0x8000_0000_0000_0000 <= Pow10(19)
  {
    assert Pow10(4) == 10_000;
    assert Pow10(8) == 10_000 * Pow10(4);
    assert Pow10(12) == 10_000 * Pow10(8);
    assert Pow10(16) == 10_000 * Pow10(12);
    assert Pow10(19) == 1_000 * Pow10(16);
  }

  lemma ArgRead(a: Bytes, t: Bytes)
    requires |a| < Pow10(19)
    ensures ParseArg(EncodeArg(a) + t) == Got(a, t)
  {
    hide LineLen, Digits, Strtol, Pow10;
    var h := Header('$', |a|);
    var r := EncodeArg(a) + t;
    assert r == h + (a + CRLF + t);
    HeaderRead('$', |a|, a + CRLF + t);
    assert r[|h|..|h| + |a|] == a && r[|h| + |a| + 2..] == t;
  }

  lemma ArgCut(a: Bytes, m: nat)
    requires |a| < Pow10(19) && m < |EncodeArg(a)|
    ensures ParseArg(EncodeArg(a)[..m]) == Failed(Short)
  {
    hide LineLen, Digits, Strtol, Pow10;
    var h := Header('$', |a|);
    var r := EncodeArg(a)[..m];
    if 0 < m < |h| {
      assert r == h[..m];
      HeaderCut('$', |a|, m);
    } else if m > 0 {
      assert r == h + (a + CRLF)[..m - |h|];
      HeaderRead('$', |a|, (a + CRLF)[..m - |h|]);
    }
  }

  lemma {:induction false} ArgsRead(args: seq<Bytes>, t: Bytes)
    requires forall i :: 0 <= i < |args| ==> |args[i]| < Pow10(19)
    ensures ParseArgs(EncodeArgs(args) + t, |args|) == Got(args, t)
  {
    hide ParseArg, Pow10, Digits;
    if args == [] {
      assert EncodeArgs(args) + t == t;
    } else {
      ArgsAreArgs(args);
      var u := EncodeArgs(args[1..]) + t;
      assert EncodeArgs(args) + t == EncodeArg(args[0]) + u;
      ArgRead(args[0], u);
      ArgsRead(args[1..], t);
      assert [args[0]] + args[1..] == args;
    }
  }

  lemma {:induction false} ArgsCut(args: seq<Bytes>, m: nat)
    requires forall i :: 0 <= i < |args| ==> |args[i]| < Pow10(19)
    requires m < |EncodeArgs(args)|
    ensures ParseArgs(EncodeArgs(args)[..m], |args|) == Failed(Short)
  {
    hide ParseArg, Pow10, Digits;
    ArgsAreArgs(args);
    var e := EncodeArg(args[0]);
    var r := EncodeArgs(args)[..m];
    if m < |e| {
      assert r == e[..m];
      ArgCut(args[0], m);
    } else {
      assert r == e + EncodeArgs(args[1..])[..m - |e|];
      ArgRead(args[0], EncodeArgs(args[1..])[..m - |e|]);
      ArgsCut(args[1..], m - |e|);
    }
  }

  lemma OneRead(c: Cmd, t: Bytes)
    requires Representable(c)
    ensures ParseOne(Encode(c) + t) == Got(c, t)
  {
    hide LineLen, Digits, Strtol, Pow10, ParseArgs, EncodeArgs;
    Bounds();
    var h, u := Header('*', |c|), EncodeArgs(c) + t;
    assert Encode(c) + t == h + u;
    HeaderRead('*', |c|, u);
    assert IsDigit(h[1]);
    assert (h + u)[|h|..] == u;
    ArgsRead(c, t);
  }

  lemma OneCut(c: Cmd, m: nat)
    requires Representable(c) && 0 < m < |Encode(c)|
    ensures ParseOne(Encode(c)[..m]) == Failed(Short)
  {
    hide LineLen, Digits, Strtol, Pow10, ParseArgs, EncodeArgs;
    Bounds();
    var h := Header('*', |c|);
    var r := Encode(c)[..m];
    if m < |h| {
      assert r == h[..m];
      HeaderCut('*', |c|, m);
      if m >= 2 { NoArgs(Strtol(r[1..m])); }
    } else {
      var u := EncodeArgs(c)[..m - |h|];
      assert r == h + u;
      HeaderRead('*', |c|, u);
      assert IsDigit(h[1]);
      assert (h + u)[|h|..] == u;
      ArgsCut(c, m - |h|);
    }
  }

  lemma NoArgs(n: nat)
    requires n >= 1
    ensures ParseArgs("", n) == Failed(Short)
  {
  }

  ghost predicate AllRepresentable(cs: seq<Cmd>) {
    forall i :: 0 <= i < |cs| ==> Representable(cs[i])
  }

  /** Number of whole commands within the first `n` bytes. */
  function Whole(cs: seq<Cmd>, n: nat): (m: nat)
    ensures m <= |cs|
  {
    if cs == [] || n < |Encode(cs[0])| then 0 else 1 + Whole(cs[1..], n - |Encode(cs[0])|)
  }

  /** Loading any prefix of an encoded log, of any length: exactly the whole
      commands are replayed, the only failure is an unexpected end of file, and
      the valid offset is the end of the last whole command. */
  lemma {:induction false} LoadPrefixFrom(cs: seq<Cmd>, n: nat, off: nat, before: seq<Cmd>)
    requires AllRepresentable(cs) && n <= |EncodeAll(cs)|
    ensures var m := Whole(cs, n);
            var end := |EncodeAll(cs[..m])|;
            end <= n &&
            LoadFrom(EncodeAll(cs)[..n], off, before) ==
              if end == n then Loaded(before + cs[..m]) else Truncated(before + cs[..m], off + end)
    decreases |cs|
  {
    hide ParseOne, Encode, Representable;
    if cs == [] {
      assert EncodeAll(cs)[..n] == "" && before + cs[..0] == before;
    } else {
      var c, rest := cs[0], cs[1..];
      var e := Encode(c);
      var r := EncodeAll(cs)[..n];
      if n < |e| {
        assert r == e[..n] && EncodeAll(cs[..0]) == "" && before + cs[..0] == before;
        if n > 0 { OneCut(c, n); }
      } else {
        var t := EncodeAll(rest)[..n - |e|];
        assert r == e + t;
        OneRead(c, t);
        LoadPrefixFrom(rest, n - |e|, off + |e|, before + [c]);
        EncodeNonEmpty(c);
        TakeOneMore(cs, Whole(rest, n - |e|), before);
      }
    }
  }

  lemma TakeOneMore(cs: seq<Cmd>, m: nat, before: seq<Cmd>)
    requires m < |cs|
    ensures EncodeAll(cs[..m + 1]) == Encode(cs[0]) + EncodeAll(cs[1..][..m])
    ensures before + [cs[0]] + cs[1..][..m] == before + cs[..m + 1]
  {
    hide Encode;
    assert cs[..m + 1][1..] == cs[1..][..m];
    assert cs[..m + 1] == [cs[0]] + cs[1..][..m];
  }

  lemma EncodeNonEmpty(c: Cmd)
    ensures |Encode(c)| > 0
  {
  }

  /** Parsing undoes printing. */
  lemma LoadAll(cs: seq<Cmd>)
    requires AllRepresentable(cs)
    ensures LoadFrom(EncodeAll(cs), 0, []) == Loaded(cs)
  {
    hide LoadFrom, Encode;
    var b := EncodeAll(cs);
    LoadPrefixFrom(cs, |b|, 0, []);
    WholeAll(cs);
    assert b[..|b|] == b && cs[..|cs|] == cs && [] + cs == cs;
  }

  lemma {:induction false} WholeAll(cs: seq<Cmd>)
    ensures Whole(cs, |EncodeAll(cs)|) == |cs|
  {
    if cs != [] { WholeAll(cs[1..]); }
  }

  lemma {:induction false} EncodeAllAppend(a: seq<Cmd>, b: seq<Cmd>)
    ensures EncodeAll(a + b) == EncodeAll(a) + EncodeAll(b)
  {
    hide Encode;
    if a == [] {
      assert a + b == b;
    } else {
      assert (a + b)[1..] == a[1..] + b;
      EncodeAllAppend(a[1..], b);
    }
  }

  /** The format in bytes. */
  lemma Format()
    ensures Encode(["GET", "0123456789"]) == "*2\r\n" + "$3\r\nGET\r\n" + "$10\r\n0123456789\r\n"
  {
    hide Digits, EncodeArgs, EncodeArg;
    FormatDigits();
    var x, y := ["GET", "0123456789"], ["0123456789"];
    assert x[1..] == y && y[1..] == [];
    ArgsAreArgs(x);
    ArgsAreArgs(y);
    FormatShort();
    FormatLong();
    assert "*" + "2" + CRLF == "*2\r\n";
  }

  lemma FormatShort()
    ensures EncodeArg("GET") == "$3\r\nGET\r\n"
  {
    hide Digits;
    FormatDigits();
  }

  lemma FormatLong()
    ensures EncodeArg("0123456789") == "$10\r\n0123456789\r\n"
  {
    hide Digits;
    FormatDigits();
  }

  lemma FormatDigits()
    ensures Digits(0) == "0" && Digits(2) == "2" && Digits(3) == "3" && Digits(10) == "10" && EncodeArgs([]) == ""
  {
    assert DigitChar(0) == '0' && DigitChar(2) == '2' && DigitChar(3) == '3';
  }

  // Logs not written by this encoder: anything that loads can be appended to.

  lemma {:induction false} LineLenAppend(r: Bytes, t: Bytes, limit: nat)
    requires LineLen(r, limit) < |r|
    ensures LineLen(r + t, limit) == LineLen(r, limit)
    decreases limit
  {
    if limit > 0 && r[0] != '\n' {
      assert (r + t)[1..] == r[1..] + t;
      LineLenAppend(r[1..], t, limit - 1);
    }
  }

  lemma ArgAppend(r: Bytes, t: Bytes)
    requires ParseArg(r).Got?
    ensures ParseArg(r + t) == Got(ParseArg(r).value, ParseArg(r).rest + t)
  {
    hide LineLen, Strtol;
    LineLenAppend(r, t, LINE_MAX);
    var k := LineLen(r, LINE_MAX);
    var len := Strtol(r[1..k]);
    assert (r + t)[1..k] == r[1..k] && (r + t)[k..k + len] == r[k..k + len];
    assert (r + t)[k + len + 2..] == r[k + len + 2..] + t;
  }

  lemma {:induction false} ArgsAppend(r: Bytes, n: nat, t: Bytes)
    requires ParseArgs(r, n).Got?
    ensures ParseArgs(r + t, n) == Got(ParseArgs(r, n).value, ParseArgs(r, n).rest + t)
    decreases n
  {
    hide ParseArg;
    if n > 0 {
      ArgAppend(r, t);
      ArgsAppend(ParseArg(r).rest, n - 1, t);
    }
  }

  lemma CountAppend(r: Bytes, t: Bytes)
    requires r != "" && ParseCount(r).Got? && ParseCount(r).rest != ""
    ensures ParseCount(r + t) == Got(ParseCount(r).value, ParseCount(r).rest + t)
  {
    hide LineLen, Strtol;
    LineLenAppend(r, t, LINE_MAX);
    var k := LineLen(r, LINE_MAX);
    assert (r + t)[1..k] == r[1..k] && (r + t)[k..] == r[k..] + t;
  }

  lemma OneAppend(r: Bytes, t: Bytes)
    requires r != "" && ParseOne(r).Got?
    ensures ParseOne(r + t) == Got(ParseOne(r).value, ParseOne(r).rest + t)
  {
    hide ParseCount, ParseArgs;
    var c := ParseCount(r);
    if c.rest == "" { NoArgs(c.value); }
    CountAppend(r, t);
    ArgsAppend(c.rest, c.value, t);
  }

  /** A file that loads, extended by any bytes, loads its own commands first. */
  lemma {:induction false} LoadAppend(a: Bytes, t: Bytes, off: nat, cmds: seq<Cmd>)
    requires LoadFrom(a, off, cmds).Loaded?
    ensures LoadFrom(a + t, off, cmds) == LoadFrom(t, off + |a|, LoadFrom(a, off, cmds).cmds)
    decreases |a|
  {
    hide ParseOne;
    if a == "" {
      assert a + t == t;
    } else {
      OneAppend(a, t);
      var o := ParseOne(a);
      LoadAppend(o.rest, t, off + |a| - |o.rest|, cmds + [o.value]);
    }
  }

  // Malformed input is refused, not taken for a cut.

  /** After any loadable log, a byte other than `*` is a format error. */
  lemma BadMark(a: Bytes, t: Bytes)
    requires LoadFrom(a, 0, []).Loaded? && t != "" && t[0] != '*'
    ensures LoadFrom(a + t, 0, []) == Refused(LoadFrom(a, 0, []).cmds, Bad)
  {
    LoadAppend(a, t, 0, []);
  }

  /** So is a command of no or a negative number of arguments, whatever follows. */
  lemma BadCount(a: Bytes, n: nat, u: Bytes)
    requires LoadFrom(a, 0, []).Loaded? && n < 0x8000_0000
    ensures LoadFrom(a + ("*0" + CRLF + u), 0, []) == Refused(LoadFrom(a, 0, []).cmds, Bad)
    ensures LoadFrom(a + ("*-" + Digits(n) + CRLF + u), 0, []) == Refused(LoadFrom(a, 0, []).cmds, Bad)
  {
    hide LoadFrom, Digits, LineLen, Strtol, Pow10;
    var t := "*0" + CRLF + u;
    LoadAppend(a, t, 0, []);
    ZeroCount(u);
    Malformed(t, |a|, LoadFrom(a, 0, []).cmds);
    var s := "*-" + Digits(n) + CRLF + u;
    LoadAppend(a, s, 0, []);
    NegativeCount(n, u);
    Malformed(s, |a|, LoadFrom(a, 0, []).cmds);
  }

  lemma NegativeCount(n: nat, u: Bytes)
    requires n < 0x8000_0000
    ensures ParseOne("*-" + Digits(n) + CRLF + u) == Failed(Bad)
  {
    hide Digits, LineLen, DigitsVal, Pow10, ParseArgs;
    Bounds();
    DigitsShort(n, 19);
    var h := "*-" + Digits(n) + CRLF;
    LineLenIs(h + u, |h|, LINE_MAX);
  }

  lemma ZeroCount(u: Bytes)
    ensures ParseOne("*0" + CRLF + u) == Failed(Bad)
  {
    hide Digits, LineLen, Strtol, Pow10, ParseArgs;
    FormatDigits();
    Bounds();
    var h := Header('*', 0);
    HeaderRead('*', 0, u);
    assert "*0" + CRLF == h;
  }

  lemma Malformed(t: Bytes, off: nat, cmds: seq<Cmd>)
    requires t != "" && ParseOne(t) == Failed(Bad)
    ensures LoadFrom(t, off, cmds) == Refused(cmds, Bad)
  {
    hide ParseOne;
  }

  /** And an argument that does not start with `$`, after any number of good ones. */
  lemma BadArg(a: Bytes, n: nat, args: seq<Bytes>, u: Bytes)
    requires LoadFrom(a, 0, []).Loaded? && |args| < n < 0x8000_0000 && u != "" && u[0] != '$'
    requires forall i :: 0 <= i < |args| ==> |args[i]| < 0x8000_0000_0000_0000
    ensures LoadFrom(a + (Header('*', n) + (EncodeArgs(args) + u)), 0, []) == Refused(LoadFrom(a, 0, []).cmds, Bad)
  {
    hide LoadFrom, ParseOne, EncodeArgs, Header;
    var t := Header('*', n) + (EncodeArgs(args) + u);
    LoadAppend(a, t, 0, []);
    OneBad(args, n, u);
    Malformed(t, |a|, LoadFrom(a, 0, []).cmds);
  }

  lemma OneBad(args: seq<Bytes>, n: nat, u: Bytes)
    requires |args| < n < 0x8000_0000 && u != "" && u[0] != '$'
    requires forall i :: 0 <= i < |args| ==> |args[i]| < 0x8000_0000_0000_0000
    ensures ParseOne(Header('*', n) + (EncodeArgs(args) + u)) == Failed(Bad)
  {
    hide LineLen, Digits, Strtol, Pow10, ParseArgs, EncodeArgs;
    Bounds();
    var h, v := Header('*', n), EncodeArgs(args) + u;
    HeaderRead('*', n, v);
    assert IsDigit(h[1]);
    assert (h + v)[|h|..] == v;
    ArgsBad(args, n, u);
  }

  lemma {:induction false} ArgsBad(args: seq<Bytes>, n: nat, u: Bytes)
    requires |args| < n && u != "" && u[0] != '$'
    requires forall i :: 0 <= i < |args| ==> |args[i]| < Pow10(19)
    ensures ParseArgs(EncodeArgs(args) + u, n) == Failed(Bad)
    decreases |args|
  {
    hide ParseArg, Pow10, Digits, EncodeArg, EncodeArgs;
    if args == [] {
      NoneBefore(u);
    } else {
      ArgsAreArgs(args);
      var rest := EncodeArgs(args[1..]) + u;
      assert EncodeArgs(args) + u == EncodeArg(args[0]) + rest;
      ArgRead(args[0], rest);
      ArgsBad(args[1..], n - 1, u);
    }
  }

  lemma NoneBefore(u: Bytes)
    requires u != "" && u[0] != '$'
    ensures EncodeArgs([]) + u == u && ParseArg(u) == Failed(Bad)
  {
  }
}
