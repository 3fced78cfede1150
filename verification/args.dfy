/** Command-line configuration: `to_int` (base-10 `strtol` on a C string,
    falling back to a default), the flag scan of `parse_args`, and the
    clamping that keeps the counts usable. */
module Args {
  import opened Word32

  /** `argv[i]` as `to_int` sees it: a null pointer or the characters of a
      C string. A `'\0'` inside the sequence ends the C string there. */
  datatype CString = Null | Chars(s: seq<char>)

  const LongMin: int := -0x8000_0000_0000_0000
  const LongMax: int := 0x7fff_ffff_ffff_ffff

  /** The character `*end` reads: the terminator once past the end. */
  function CharAt(s: seq<char>, i: nat): char
  {
    if i < |s| then s[i] else '\0'
  }

  /** `isspace` in the C locale. */
  predicate IsSpace(c: char)
  {
    c == ' ' || c == '\t' || c == '\n' || c as int == 11 || c as int == 12 || c == '\r'
  }

  predicate IsDigit(c: char)
  {
    '0' <= c <= '9'
  }

  function DigitValue(c: char): nat
    requires IsDigit(c)
  {
    c as int - '0' as int
  }

  /** The first index at or after `i` that is not white space. */
  function SkipSpace(s: seq<char>, i: nat): (r: nat)
    requires i <= |s|
    ensures i <= r <= |s|
    ensures forall k :: i <= k < r ==> IsSpace(s[k])
    ensures r == |s| || !IsSpace(s[r])
    decreases |s| - i
  {
    if i < |s| && IsSpace(s[i]) then SkipSpace(s, i + 1) else i
  }

  /** The end of the run of decimal digits that starts at `i`. */
  function DigitsEnd(s: seq<char>, i: nat): (r: nat)
    requires i <= |s|
    ensures i <= r <= |s|
    ensures forall k :: i <= k < r ==> IsDigit(s[k])
    ensures r == |s| || !IsDigit(s[r])
    decreases |s| - i
  {
    if i < |s| && IsDigit(s[i]) then DigitsEnd(s, i + 1) else i
  }

  /** The number a run of decimal digits denotes, most significant first. */
  function DigitsValue(d: seq<char>): (r: nat)
    requires forall k :: 0 <= k < |d| ==> IsDigit(d[k])
  {
    if |d| == 0 then 0 else 10 * DigitsValue(d[..|d| - 1]) + DigitValue(d[|d| - 1])
  }

  /** `strtol(s, &end, 10)`: the value and the index `end` points at. Leading
      white space and one sign are accepted; without any digit nothing is
      consumed (`end == s`, value 0); a value outside `long` saturates. */
  datatype Parse = Parse(value: int, end: nat)

  /** Where the digits of `strtol` start: after the leading white space
      and at most one sign. */
  function DigitStart(s: seq<char>): (j: nat)
    ensures j <= |s|
    ensures var i := SkipSpace(s, 0);
              if CharAt(s, i) == '-' || CharAt(s, i) == '+' then j == i + 1 else j == i
  {
    var i := SkipSpace(s, 0);
    if i < |s| && (s[i] == '-' || s[i] == '+') then i + 1 else i
  }

  /** A mathematical value saturated to the `long` range. */
  function Clip(n: int): (r: int)
    ensures LongMin <= r <= LongMax
    ensures LongMin <= n <= LongMax ==> r == n
    ensures n < LongMin ==> r == LongMin
    ensures n > LongMax ==> r == LongMax
  {
    if n < LongMin then LongMin else if n > LongMax then LongMax else n
  }

  function Strtol(s: seq<char>): (r: Parse)
    ensures LongMin <= r.value <= LongMax && r.end <= |s|
    ensures r.end == 0 <==> !IsDigit(CharAt(s, DigitStart(s)))
    ensures r.end == 0 ==> r.value == 0
    ensures r.end > 0 ==> DigitStart(s) < r.end
    ensures r.end > 0 ==> forall k :: DigitStart(s) <= k < r.end ==> IsDigit(s[k])
    ensures r.end > 0 ==> !IsDigit(CharAt(s, r.end))
  {
    var j := DigitStart(s);
    var neg := j > 0 && s[j - 1] == '-';
    var k := DigitsEnd(s, j);
    if k == j then Parse(0, 0)
    else
      var m: int := DigitsValue(s[j..k]);
      Parse(Clip(if neg then -m else m), k)
  }

  /** `to_int(s, def)`: the default for a null pointer or for any
      character left over after the number; otherwise the `long` result
      converted to `int`. */
  function ToInt(c: CString, def: Int32): (r: Int32)
    ensures c == Null ==> r == def
    ensures c.Chars? && CharAt(c.s, Strtol(c.s).end) != '\0' ==> r == def
    ensures c.Chars? && CharAt(c.s, Strtol(c.s).end) == '\0' ==>
              (r - Strtol(c.s).value) % Modulus == 0
  {
    match c
    case Null => def
    case Chars(s) =>
      var p := Strtol(s);
      if CharAt(s, p.end) != '\0' then def else WrapInt32(p.value)
  }

  /** The decimal digits of a natural number, without leading zeros. */
  function Digits(n: nat): (r: seq<char>)
    ensures |r| >= 1 && forall k :: 0 <= k < |r| ==> IsDigit(r[k])
  {
    if n < 10 then [Digit(n)] else Digits(n / 10) + [Digit(n % 10)]
  }

  function Digit(d: nat): (c: char)
    requires d < 10
    ensures IsDigit(c) && DigitValue(c) == d
  {
    ('0' as int + d) as char
  }

  /** How an `int` is written on the command line: an optional minus sign
      and its digits. */
  function Decimal(n: int): (r: seq<char>)
    ensures |r| >= 1
  {
    if n < 0 then ['-'] + Digits(-n) else Digits(n)
  }

  /** The digits of `n` read back give `n`. */
  lemma {:induction false} DigitsValueOfDigits(n: nat)
    ensures DigitsValue(Digits(n)) == n
    decreases n
  {
    if n >= 10 {
      var d := Digits(n);
      assert d[..|d| - 1] == Digits(n / 10);
      DigitsValueOfDigits(n / 10);
    }
  }

  /** `strtol` reads a decimal literal up to the first character that is
      not a digit; its value saturates at the `long` range. */
  lemma {:induction false} StrtolDecimal(n: int, rest: seq<char>)
    requires |rest| == 0 || !IsDigit(rest[0])
    ensures Strtol(Decimal(n) + rest) == Parse(Clip(n), |Decimal(n)|)
  {
    var s := Decimal(n) + rest;
    var m := if n < 0 then -n else n;
    var d := Digits(m);
    var j := if n < 0 then 1 else 0;
    assert SkipSpace(s, 0) == 0;
    assert DigitStart(s) == j;
    assert s[j..j + |d|] == d;
    DigitsEndRun(s, j, |d|);
    DigitsValueOfDigits(m);
    StrtolRun(s, j, j + |d|, m, n < 0);
  }

  /** `strtol` on a string whose digit run ends at `k` and denotes `m`:
      the signed value, saturated, ending at `k`. */
  lemma {:induction false} StrtolRun(s: seq<char>, j: nat, k: nat, m: nat, neg: bool)
    requires DigitStart(s) == j < k
    requires k == DigitsEnd(s, j)
    requires DigitsValue(s[j..k]) == m
    requires neg <==> j > 0 && s[j - 1] == '-'
    ensures Strtol(s) == Parse(Clip(if neg then -(m as int) else m), k)
  {
  }

  /** `strtol` skips leading white space, accepts a sign and ignores
      leading zeros: `" +007"` reads as 7 and `" -007"` as -7. */
  lemma {:induction false} StrtolPadded(ws: seq<char>, sign: char, zeros: seq<char>, n: nat, rest: seq<char>)
    requires forall k :: 0 <= k < |ws| ==> IsSpace(ws[k])
    requires sign == '+' || sign == '-'
    requires forall k :: 0 <= k < |zeros| ==> zeros[k] == '0'
    requires |rest| == 0 || !IsDigit(rest[0])
    ensures Strtol(ws + [sign] + zeros + Decimal(n) + rest)
              == Parse(Clip(if sign == '-' then -(n as int) else n), |ws| + 1 + |zeros| + |Decimal(n)|)
  {
    var pre, d := ws + [sign], zeros + Decimal(n);
    assert ws + [sign] + zeros + Decimal(n) + rest == pre + d + rest;
    assert DigitStart(pre + d + rest) == |pre| by {
      SignAfterSpace(ws, sign, d + rest);
      assert pre + d + rest == ws + [sign] + (d + rest);
    }
    assert DigitsValue(d) == n by {
      DigitsValueOfDigits(n);
      LeadingZeros(zeros, Decimal(n));
    }
    StrtolAfterSign(pre, d, rest, n);
  }

  /** After white space, a sign is where the digits of `strtol` start. */
  lemma {:induction false} SignAfterSpace(ws: seq<char>, sign: char, t: seq<char>)
    requires forall k :: 0 <= k < |ws| ==> IsSpace(ws[k])
    requires sign == '+' || sign == '-'
    ensures DigitStart(ws + [sign] + t) == |ws| + 1
  {
    var s := ws + [sign] + t;
    assert s[|ws|] == sign;
    SkipSpaceRun(s, 0, |ws|);
  }

  /** A digit run `d` of value `n` that starts where the digits of
      `strtol` start, after a sign, and ends before a non-digit: the
      value is negated exactly when the sign is `'-'`. */
  lemma {:induction false} StrtolAfterSign(pre: seq<char>, d: seq<char>, rest: seq<char>, n: nat)
    requires |pre| > 0 && (pre[|pre| - 1] == '+' || pre[|pre| - 1] == '-')
    requires DigitStart(pre + d + rest) == |pre|
    requires |d| > 0 && forall k :: 0 <= k < |d| ==> IsDigit(d[k])
    requires DigitsValue(d) == n
    requires |rest| == 0 || !IsDigit(rest[0])
    ensures Strtol(pre + d + rest)
              == Parse(Clip(if pre[|pre| - 1] == '-' then -(n as int) else n), |pre| + |d|)
  {
    var s := pre + d + rest;
    DigitRunAfter(pre, d, rest);
    assert s[|pre| - 1] == pre[|pre| - 1];
    StrtolRun(s, |pre|, |pre| + |d|, n, pre[|pre| - 1] == '-');
  }

  /** Digits `d` placed after `pre` and before a non-digit form the whole
      digit run that starts at `|pre|`. */
  lemma {:induction false} DigitRunAfter(pre: seq<char>, d: seq<char>, rest: seq<char>)
    requires forall k :: 0 <= k < |d| ==> IsDigit(d[k])
    requires |rest| == 0 || !IsDigit(rest[0])
    ensures DigitsEnd(pre + d + rest, |pre|) == |pre| + |d|
    ensures (pre + d + rest)[|pre|..|pre| + |d|] == d
  {
    var s := pre + d + rest;
    assert forall k :: |pre| <= k < |pre| + |d| ==> s[k] == d[k - |pre|];
    DigitsEndRun(s, |pre|, |d|);
  }

  /** A run of `len` white-space characters at `i` followed by something
      else is skipped up to `i + len`. */
  lemma {:induction false} SkipSpaceRun(s: seq<char>, i: nat, len: nat)
    requires i + len <= |s|
    requires forall k :: i <= k < i + len ==> IsSpace(s[k])
    requires i + len == |s| || !IsSpace(s[i + len])
    ensures SkipSpace(s, i) == i + len
    decreases len
  {
    if len > 0 {
      SkipSpaceRun(s, i + 1, len - 1);
    }
  }

  /** Zeros in front of a digit run do not change its value. */
  lemma {:induction false} LeadingZeros(zeros: seq<char>, d: seq<char>)
    requires forall k :: 0 <= k < |zeros| ==> zeros[k] == '0'
    requires forall k :: 0 <= k < |d| ==> IsDigit(d[k])
    ensures DigitsValue(zeros + d) == DigitsValue(d)
    decreases |d|, |zeros|
  {
    if |d| > 0 {
      assert (zeros + d)[..|zeros + d| - 1] == zeros + d[..|d| - 1];
      LeadingZeros(zeros, d[..|d| - 1]);
    } else if |zeros| > 0 {
      assert zeros + d == zeros;
      assert (zeros + d)[..|zeros| - 1] == zeros[..|zeros| - 1] + d;
      LeadingZeros(zeros[..|zeros| - 1], d);
    }
  }

  /** A run of `len` digits at `j` followed by a non-digit ends at `j + len`. */
  lemma {:induction false} DigitsEndRun(s: seq<char>, j: nat, len: nat)
    requires j + len <= |s|
    requires forall k :: j <= k < j + len ==> IsDigit(s[k])
    requires j + len == |s| || !IsDigit(s[j + len])
    ensures DigitsEnd(s, j) == j + len
    decreases len
  {
    if len > 0 {
      DigitsEndRun(s, j + 1, len - 1);
    }
  }

  /** `to_int` inverts decimal printing on every `int`. */
  lemma {:induction false} ToIntDecimal(n: Int32, def: Int32)
    ensures ToInt(Chars(Decimal(n)), def) == n
  {
    StrtolDecimal(n, []);
    assert Decimal(n) + [] == Decimal(n);
  }

  /** Anything after the number other than the terminator makes `to_int`
      fall back to the default: `"12 "`, `"12x"`, `"1.5"`. */
  lemma {:induction false} TrailingRejected(n: Int32, c: char, rest: seq<char>, def: Int32)
    requires !IsDigit(c) && c != '\0'
    ensures ToInt(Chars(Decimal(n) + [c] + rest), def) == def
  {
    assert Decimal(n) + [c] + rest == Decimal(n) + ([c] + rest);
    StrtolDecimal(n, [c] + rest);
  }

  /** No digits: nothing is consumed, so a non-empty string falls back to
      the default and the empty string reads as 0. */
  lemma {:induction false} NoDigits(s: seq<char>, def: Int32)
    requires forall k :: 0 <= k < |s| ==> !IsDigit(s[k])
    ensures ToInt(Chars(s), def) == (if |s| == 0 || s[0] == '\0' then 0 else def)
  {
    var i := SkipSpace(s, 0);
    var j := if i < |s| && (s[i] == '-' || s[i] == '+') then i + 1 else i;
    assert DigitsEnd(s, j) == j;
  }

  /** `struct Config` with its member initialisers. */
  datatype Config = Config(
    tasks: Int32,
    concurrency: Int32,
    repeats: Int32,
    warmup: Int32,
    cpuUnits: Int32,
    payloadSize: Int32,
    backlog: Int32,
    timeoutMs: Int32)

  const Defaults: Config := Config(2000, 200, 5, 1, 200000, 256, 4096, 20000)

  /** What `parse_args` ends in: a configuration, or the usage text and
      `exit(0)`. */
  datatype Parsed = Run(cfg: Config) | Help

  /** A configuration the benchmarks can use. */
  predicate Clamped(c: Config)
  {
    c.tasks >= 1 && c.concurrency >= 1 && c.repeats >= 1 && c.warmup >= 0
  }

  /** The four lower bounds applied after the scan. */
  function Clamp(c: Config): (r: Config)
    ensures Clamped(r)
    ensures r.cpuUnits == c.cpuUnits && r.payloadSize == c.payloadSize
         && r.backlog == c.backlog && r.timeoutMs == c.timeoutMs
    ensures Clamped(c) ==> r == c
    ensures r.tasks >= c.tasks && r.concurrency >= c.concurrency
         && r.repeats >= c.repeats && r.warmup >= c.warmup
    ensures r.tasks != c.tasks ==> r.tasks == 1
    ensures r.concurrency != c.concurrency ==> r.concurrency == 1
    ensures r.repeats != c.repeats ==> r.repeats == 1
    ensures r.warmup != c.warmup ==> r.warmup == 0
  {
    c.(tasks := if c.tasks < 1 then 1 else c.tasks,
       concurrency := if c.concurrency < 1 then 1 else c.concurrency,
       repeats := if c.repeats < 1 then 1 else c.repeats,
       warmup := if c.warmup < 0 then 0 else c.warmup)
  }

  /** Clamping twice is clamping once. */
  lemma {:induction false} ClampIdempotent(c: Config)
    ensures Clamp(Clamp(c)) == Clamp(c)
  {
  }

  /** Which field a flag names. */
  datatype Field = Tasks | Concurrency | Repeats | Warmup | CpuUnits | PayloadSize | Backlog | TimeoutMs

  datatype Flag = Set(field: Field) | Usage | Unknown

  /** The C string an argument denotes: its characters up to the first
      `'\0'`, as `std::string a = argv[i]` copies them. */
  function CStr(a: seq<char>): (r: seq<char>)
    ensures r <= a
    ensures forall k :: 0 <= k < |r| ==> r[k] != '\0'
    ensures r == a || a[|r|] == '\0'
  {
    if |a| == 0 || a[0] == '\0' then [] else [a[0]] + CStr(a[1..])
  }

  /** An argument without a `'\0'` is its own C string. */
  lemma {:induction false} CStrPlain(a: seq<char>)
    requires forall k :: 0 <= k < |a| ==> a[k] != '\0'
    ensures CStr(a) == a
    decreases |a|
  {
    if |a| > 0 {
      CStrPlain(a[1..]);
      assert [a[0]] + a[1..] == a;
    }
  }

  /** Whatever follows an embedded `'\0'` is invisible: `"--tasks\0x"` is
      the option `--tasks`. */
  lemma {:induction false} CStrStops(a: seq<char>, rest: seq<char>)
    requires forall k :: 0 <= k < |a| ==> a[k] != '\0'
    ensures CStr(a + ['\0'] + rest) == a
    decreases |a|
  {
    if |a| > 0 {
      assert (a + ['\0'] + rest)[1..] == a[1..] + ['\0'] + rest;
      CStrStops(a[1..], rest);
      assert [a[0]] + a[1..] == a;
    }
  }

  /** Which option an argument is, judged on its C string. */
  function Classify(a: seq<char>): Flag
  {
    if a == "--tasks" then Set(Tasks)
    else if a == "--concurrency" then Set(Concurrency)
    else if a == "--repeats" then Set(Repeats)
    else if a == "--warmup" then Set(Warmup)
    else if a == "--cpu-units" then Set(CpuUnits)
    else if a == "--payload-size" then Set(PayloadSize)
    else if a == "--backlog" then Set(Backlog)
    else if a == "--timeout-ms" then Set(TimeoutMs)
    else if a == "--help" || a == "-h" then Usage
    else Unknown
  }

  /** The option that sets field `f`. */
  function FlagName(f: Field): (a: seq<char>)
    ensures Classify(a) == Set(f)
  {
    match f
    case Tasks => "--tasks"
    case Concurrency => "--concurrency"
    case Repeats => "--repeats"
    case Warmup => "--warmup"
    case CpuUnits => "--cpu-units"
    case PayloadSize => "--payload-size"
    case Backlog => "--backlog"
    case TimeoutMs => "--timeout-ms"
  }

  function Get(c: Config, f: Field): Int32
  {
    match f
    case Tasks => c.tasks
    case Concurrency => c.concurrency
    case Repeats => c.repeats
    case Warmup => c.warmup
    case CpuUnits => c.cpuUnits
    case PayloadSize => c.payloadSize
    case Backlog => c.backlog
    case TimeoutMs => c.timeoutMs
  }

  /** Assign one field; every other field is unchanged. */
  function Put(c: Config, f: Field, v: Int32): (r: Config)
    ensures Get(r, f) == v
    ensures forall g :: g != f ==> Get(r, g) == Get(c, g)
  {
    match f
    case Tasks => c.(tasks := v)
    case Concurrency => c.(concurrency := v)
    case Repeats => c.(repeats := v)
    case Warmup => c.(warmup := v)
    case CpuUnits => c.(cpuUnits := v)
    case PayloadSize => c.(payloadSize := v)
    case Backlog => c.(backlog := v)
    case TimeoutMs => c.(timeoutMs := v)
  }

  /** The loop of `parse_args` from index `i`. A value flag reads the next
      argument through `next(def)` (consuming it, whatever it is) with the
      field's current value as the default, or keeps the value when it is
      the last argument; unknown arguments are skipped. */
  function Scan(argv: seq<seq<char>>, i: nat, c: Config): (r: Parsed)
    decreases |argv| - i
  {
    if i >= |argv| then Run(c)
    else
      match Classify(CStr(argv[i]))
      case Usage => Help
      case Unknown => Scan(argv, i + 1, c)
      case Set(f) =>
        if i + 1 >= |argv| then Scan(argv, i + 1, c)
        else Scan(argv, i + 2, Put(c, f, ToInt(Chars(argv[i + 1]), Get(c, f))))
  }

  /** `parse_args(argc, argv)`: scan from `argv[1]`, then clamp. */
  function ParseArgs(argv: seq<seq<char>>): (r: Parsed)
    ensures r.Run? ==> Clamped(r.cfg)
  {
    match Scan(argv, 1, Defaults)
    case Help => Help
    case Run(c) => Run(Clamp(c))
  }

  /** Without options, the defaults are used unchanged. */
  lemma {:induction false} NoOptions(prog: seq<char>)
    ensures ParseArgs([prog]) == Run(Defaults)
  {
  }

  /** `--tasks N` sets the task count to `N`, raised to 1 when smaller. */
  lemma {:induction false} TasksOption(prog: seq<char>, n: Int32)
    ensures ParseArgs([prog, "--tasks", Decimal(n)]) == Run(Defaults.(tasks := if n < 1 then 1 else n))
  {
    var argv := [prog, "--tasks", Decimal(n)];
    ToIntDecimal(n, 2000);
    ScanTakesValue(argv, 1, Defaults, Tasks);
  }

  /** The word after a value flag is its value even when it looks like a
      flag: `--tasks --help` keeps the default task count and does not
      print the usage. */
  lemma {:induction false} ValueIsConsumed(prog: seq<char>)
    ensures ParseArgs([prog, "--tasks", "--help"]) == Run(Defaults)
  {
    var argv := [prog, "--tasks", "--help"];
    NoDigits("--help", 2000);
    ScanTakesValue(argv, 1, Defaults, Tasks);
  }

  /** A value flag with a word after it stores that word's value and
      resumes the scan two words on. */
  lemma {:induction false} ScanTakesValue(argv: seq<seq<char>>, i: nat, c: Config, f: Field)
    requires i + 1 < |argv| && argv[i] == FlagName(f)
    ensures Scan(argv, i, c) == Scan(argv, i + 2, Put(c, f, ToInt(Chars(argv[i + 1]), Get(c, f))))
  {
    CStrPlain(argv[i]);
    assert Classify(CStr(argv[i])) == Set(f);
  }

  /** `--help` or `-h` reached by the scan stops it, whatever follows. */
  lemma {:induction false} HelpStops(argv: seq<seq<char>>, i: nat, c: Config)
    requires i < |argv| && (argv[i] == "--help" || argv[i] == "-h")
    ensures Scan(argv, i, c) == Help
  {
    CStrPlain(argv[i]);
  }
}
