/** The append-only log as bytes: commands as RESP arrays of bulk strings, timestamp notes as
    comment lines, and the line-and-block reader that the loader is built on. */
module AofCodec {
  type Argv = seq<string>

  datatype Item = Note(ts: nat) | Cmd(argv: Argv)

  /* ----------------------------------------------------------------- encoding */

  function Digit(d: nat): (c: char)
    requires d < 10
    ensures '0' <= c <= '9' && c as int - '0' as int == d
  {
    ('0' as int + d) as char
  }

  function Dec(n: nat): (s: string)
    ensures |s| >= 1 && forall i :: 0 <= i < |s| ==> '0' <= s[i] <= '9'
  {
    if n < 10 then [Digit(n)] else Dec(n / 10) + [Digit(n % 10)]
  }

  function Header(c: char, n: nat): (s: string) { [c] + Dec(n) + "\r\n" }

  function Bulk(arg: string): (s: string) { Header('$', |arg|) + arg + "\r\n" }

  function Bulks(argv: Argv): (s: string) {
    if argv == [] then "" else Bulk(argv[0]) + Bulks(argv[1..])
  }

  function EncodeItem(it: Item): (s: string) {
    match it
    case Note(ts) => "#TS:" + Dec(ts) + "\r\n"
    case Cmd(argv) => Header('*', |argv|) + Bulks(argv)
  }

  function Encode(items: seq<Item>): (s: string) {
    if items == [] then "" else EncodeItem(items[0]) + Encode(items[1..])
  }

  const LIMIT: int := 0x8000_0000_0000_0000
  const ARGC_LIMIT: int := 0x8000_0000

  /** What a server can log: at least the command name, as many arguments as an int counts,
      sizes that fit a long. */
  predicate Storable(it: Item) {
    match it
    case Note(ts) => ts < LIMIT
    case Cmd(argv) => 1 <= |argv| < ARGC_LIMIT && forall i :: 0 <= i < |argv| ==> |argv[i]| < LIMIT
  }

  predicate AllStorable(items: seq<Item>) { forall i :: 0 <= i < |items| ==> Storable(items[i]) }

  /* ------------------------------------------------------------------ reading */

  const LINE_MAX: nat := 1023 // a 1024-byte buffer with its terminator

  /** What fgets returns: up to and including the first newline, at most LINE_MAX bytes. */
  function LineLength(s: string, max: nat): (n: nat)
    ensures n <= |s| && n <= max && (s != "" && max > 0 ==> n > 0)
  {
    if s == "" || max == 0 then 0
    else if s[0] == '\n' then 1
    else 1 + LineLength(s[1..], max - 1)
  }

  function Line(s: string): (r: string) { s[..LineLength(s, LINE_MAX)] }

  function Rest(s: string): (r: string) { s[LineLength(s, LINE_MAX)..] }

  /** The line came to an end because the file did. */
  predicate HitEof(s: string) {
    var line := Line(s);
    line == s && |line| < LINE_MAX && (line == "" || line[|line| - 1] != '\n')
  }

  predicate IsDigit(c: char) { '0' <= c <= '9' }

  function Digits(s: string, acc: nat): (n: nat) {
    if s == "" || !IsDigit(s[0]) then acc else Digits(s[1..], 10 * acc + (s[0] as int - '0' as int))
  }

  predicate IsSpace(c: char) { c == ' ' || '\t' <= c <= '\r' }

  /** The decimal number at the start of a text. */
  function Number(s: string): (n: int) {
    if s == "" then 0
    else if IsSpace(s[0]) then Number(s[1..])
    else if s[0] == '-' then 0 - Digits(s[1..], 0)
    else if s[0] == '+' then Digits(s[1..], 0)
    else Digits(s, 0)
  }

  /** strtol in base ten saturates. */
  function Strtol(s: string): (n: int)
    ensures -LIMIT <= n < LIMIT
  {
    var n := Number(s);
    if n < -LIMIT then -LIMIT else if n >= LIMIT then LIMIT - 1 else n
  }

  /** atoi keeps the low 32 bits of that, as a signed number. */
  function Atoi(s: string): (n: int)
    ensures -ARGC_LIMIT <= n < ARGC_LIMIT
    ensures 0 <= Number(s) < ARGC_LIMIT ==> n == Number(s)
  {
    (Strtol(s) + ARGC_LIMIT) % (2 * ARGC_LIMIT) - ARGC_LIMIT
  }

  /** One attempt at the arguments of a command. `Short` is a read that hit the end of the
      file; `Overlong` a length no allocation can satisfy. */
  datatype Args = Args(argv: Argv, rest: string) | ShortArgs | BadArgs | Overlong

  function ParseArgs(s: string, n: nat): (r: Args)
    ensures r.Args? ==> |r.rest| <= |s| && |r.argv| == n
    decreases n
  {
    if n == 0 then Args([], s)
    else if Line(s) == "" then ShortArgs
    else if Line(s)[0] != '$' then BadArgs
    else
      var len := Strtol(Line(s)[1..]);
      if len < 0 then Overlong
      else if |Rest(s)| < len then ShortArgs
      else if |Rest(s)| < len + 2 then ShortArgs
      else
        var more := ParseArgs(Rest(s)[len + 2..], n - 1);
        if more.Args? then Args([Rest(s)[..len]] + more.argv, more.rest) else more
  }

  datatype Parsed = End | Skip(rest: string) | Command(argv: Argv, rest: string) | Short | Broken | Bad | Abort

  /** One round of the loading loop, up to the command lookup. */
  function ParseItem(s: string): (r: Parsed)
    ensures r.Skip? || r.Command? ==> |r.rest| < |s|
  {
    var line := Line(s);
    if line == "" then End
    else if line[0] == '#' then Skip(Rest(s))
    else if line[0] != '*' then Bad
    else if |line| == 1 || line[1] == '\0' then (if |line| == 1 || HitEof(s) then Short else Broken)
    else if Atoi(line[1..]) < 1 then Bad
    else
      match ParseArgs(Rest(s), Atoi(line[1..]))
      case Args(argv, rest) => Command(argv, rest)
      case ShortArgs => Short
      case BadArgs => Bad
      case Overlong => Abort
  }

  /* -------------------------------------------------------- numbers and lines */

  lemma {:induction false} DigitsAppend(s: string, t: string, acc: nat)
    requires forall i :: 0 <= i < |s| ==> IsDigit(s[i])
    ensures Digits(s + t, acc) == Digits(t, Digits(s, acc))
  {
    if s == "" {
      assert s + t == t;
    } else {
      assert (s + t)[1..] == s[1..] + t;
      DigitsAppend(s[1..], t, 10 * acc + (s[0] as int - '0' as int));
    }
  }

  lemma {:induction false} DigitsOfDec(n: nat)
    ensures Digits(Dec(n), 0) == n
  {
    if n >= 10 {
      DigitsOfDec(n / 10);
      DigitsAppend(Dec(n / 10), [Digit(n % 10)], 0);
      assert [Digit(n % 10)][1..] == "";
    } else {
      assert [Digit(n)][1..] == "";
    }
  }

  /** A number is read back from a line, whatever non-digit ends it. */
  lemma NumberDec(n: nat, t: string)
    requires t == "" || !IsDigit(t[0])
    ensures Number(Dec(n) + t) == n
  {
    DigitsOfDec(n);
    DigitsAppend(Dec(n), t, 0);
  }

  lemma {:induction false} DecShort(n: nat, bound: nat, k: nat)
    requires n < bound && k >= 1 && bound <= Pow10(k)
    ensures |Dec(n)| <= k
    decreases k
  {
    if n >= 10 {
      assert k > 1;
      DecShort(n / 10, Pow10(k - 1), k - 1);
    }
  }

  function Pow10(k: nat): (n: nat)
    ensures n >= 1
  {
    if k == 0 then 1 else 10 * Pow10(k - 1)
  }

  lemma DecFits(n: nat)
    requires n < LIMIT
    ensures |Dec(n)| <= 20
  {
    assert Pow10(5) == 100000;
    assert Pow10(10) == 10000000000;
    assert Pow10(15) == 1000000000000000;
    assert Pow10(20) == 100000000000000000000;
    DecShort(n, LIMIT, 20);
  }

  lemma {:induction false} LineEndsAtNewline(s: string, t: string, max: nat)
    requires |s| < max && forall i :: 0 <= i < |s| ==> s[i] != '\n'
    ensures LineLength(s + "\n" + t, max) == |s| + 1
  {
    if s != "" {
      assert (s + "\n" + t)[1..] == s[1..] + "\n" + t;
      LineEndsAtNewline(s[1..], t, max - 1);
    }
  }

  lemma {:induction false} LineEndsAtEof(s: string, max: nat)
    requires |s| <= max && forall i :: 0 <= i < |s| ==> s[i] != '\n'
    ensures LineLength(s, max) == |s|
  {
    if s != "" { LineEndsAtEof(s[1..], max - 1); }
  }

  /** A header line is read whole, with its number. */
  lemma ReadHeader(c: char, n: nat, t: string)
    requires c != '\n' && n < LIMIT
    ensures Line(Header(c, n) + t) == Header(c, n) && Rest(Header(c, n) + t) == t
    ensures Number(Header(c, n)[1..]) == n
  {
    DecFits(n);
    var h := [c] + Dec(n) + "\r";
    LineEndsAtNewline(h, t, LINE_MAX);
    assert Header(c, n) + t == h + "\n" + t;
    assert Header(c, n)[1..] == Dec(n) + "\r\n";
    NumberDec(n, "\r\n");
  }

  lemma ReadNote(ts: nat, t: string)
    requires ts < LIMIT
    ensures ParseItem(EncodeItem(Note(ts)) + t) == Skip(t)
  {
    DecFits(ts);
    var h := "#TS:" + Dec(ts) + "\r";
    assert EncodeItem(Note(ts)) + t == h + "\n" + t;
    LineEndsAtNewline(h, t, LINE_MAX);
  }

  /* ---------------------------------------------------- whole items round trip */

  /** One bulk string, then whatever follows. */
  lemma ReadBulk(arg: string, more: string, n: nat)
    requires |arg| < LIMIT && n >= 1
    ensures ParseArgs(Bulk(arg) + more, n)
         == var r := ParseArgs(more, n - 1); if r.Args? then Args([arg] + r.argv, r.rest) else r
  {
    var s, body := Bulk(arg) + more, arg + "\r\n" + more;
    assert s == Header('$', |arg|) + body;
    ReadHeader('$', |arg|, body);
    assert Line(s)[0] == '$';
    assert body[..|arg|] == arg && body[|arg| + 2..] == more;
  }

  lemma {:induction false} ReadBulks(argv: Argv, t: string)
    requires forall i :: 0 <= i < |argv| ==> |argv[i]| < LIMIT
    ensures ParseArgs(Bulks(argv) + t, |argv|) == Args(argv, t)
  {
    hide Bulk;
    hide Line;
    if argv == [] {
      assert Bulks(argv) + t == t;
    } else {
      assert Bulks(argv) + t == Bulk(argv[0]) + (Bulks(argv[1..]) + t);
      ReadBulk(argv[0], Bulks(argv[1..]) + t, |argv|);
      ReadBulks(argv[1..], t);
    }
  }

  /** A complete command header hands over to the argument reader. */
  lemma ReadCommandHeader(n: nat, body: string)
    requires 1 <= n < ARGC_LIMIT
    ensures ParseItem(Header('*', n) + body)
         == match ParseArgs(body, n)
            case Args(argv, rest) => Command(argv, rest)
            case ShortArgs => Short
            case BadArgs => Bad
            case Overlong => Abort
  {
    ReadHeader('*', n, body);
    var line := Line(Header('*', n) + body);
    assert line[0] == '*' && line[1] == Dec(n)[0];
  }

  lemma ReadCommand(argv: Argv, t: string)
    requires Storable(Cmd(argv))
    ensures ParseItem(EncodeItem(Cmd(argv)) + t) == Command(argv, t)
  {
    assert EncodeItem(Cmd(argv)) + t == Header('*', |argv|) + (Bulks(argv) + t);
    ReadCommandHeader(|argv|, Bulks(argv) + t);
    ReadBulks(argv, t);
  }

  /** The bound on the argument count is exact: with more arguments than an int counts, the
      same bytes are never read as the same command. */
  lemma ArgcWraps(argv: Argv, t: string)
    requires ARGC_LIMIT <= |argv| < LIMIT
    ensures ParseItem(EncodeItem(Cmd(argv)) + t) != Command(argv, t)
  {
    hide Bulks;
    hide ParseArgs;
    hide Atoi;
    hide Dec;
    var s := EncodeItem(Cmd(argv)) + t;
    assert s == Header('*', |argv|) + (Bulks(argv) + t);
    ReadHeader('*', |argv|, Bulks(argv) + t);
  }

  /* -------------------------------------------------------------- cut-off items */

  lemma {:induction false} LeadingDigits(n: nat, k: nat)
    requires 1 <= k <= |Dec(n)|
    ensures Digits(Dec(n)[..k], 0) <= n && (n >= 1 ==> Digits(Dec(n)[..k], 0) >= 1)
  {
    if n < 10 {
      assert Dec(n)[..k] == [Digit(n)] && [Digit(n)][1..] == "";
    } else if k == |Dec(n)| {
      assert Dec(n)[..k] == Dec(n);
      DigitsOfDec(n);
    } else {
      assert Dec(n)[..k] == Dec(n / 10)[..k];
      LeadingDigits(n / 10, k);
    }
  }

  /** A header cut before its newline is read as one line up to the end of the file, and its
      number is at most the full one and, if any digit is left, at least one when that is. */
  lemma ReadCutHeader(c: char, n: nat, k: nat)
    requires c != '\n' && n < LIMIT && 1 <= k < |Header(c, n)|
    ensures var p := Header(c, n)[..k];
            Line(p) == p && Rest(p) == "" && p[0] == c && 0 <= Number(p[1..]) <= n && (n >= 1 && k >= 2 ==> Number(p[1..]) >= 1)
  {
    DecFits(n);
    var p := Header(c, n)[..k];
    assert forall i :: 1 <= i < 1 + |Dec(n)| ==> Header(c, n)[i] == Dec(n)[i - 1];
    LineEndsAtEof(p, LINE_MAX);
    if k <= 1 + |Dec(n)| {
      assert p[1..] == Dec(n)[..k - 1];
      if k >= 2 { LeadingDigits(n, k - 1); }
    } else {
      assert p[1..] == Dec(n) + "\r";
      NumberDec(n, "\r");
    }
  }

  /** A cut bulk string is a short read. */
  lemma ReadCutBulk(arg: string, k: nat, n: nat)
    requires |arg| < LIMIT && n >= 1 && k < |Bulk(arg)|
    ensures ParseArgs(Bulk(arg)[..k], n) == ShortArgs
  {
    var h, p := Header('$', |arg|), Bulk(arg)[..k];
    if k == 0 {
      assert p == "";
    } else if k < |h| {
      assert p == h[..k];
      ReadCutHeader('$', |arg|, k);
    } else {
      var body := (arg + "\r\n")[..k - |h|];
      assert p == h + body;
      ReadHeader('$', |arg|, body);
      assert Line(p)[0] == '$';
    }
  }

  lemma {:induction false} ReadCutBulks(argv: Argv, k: nat)
    requires (forall i :: 0 <= i < |argv| ==> |argv[i]| < LIMIT) && k < |Bulks(argv)|
    ensures ParseArgs(Bulks(argv)[..k], |argv|) == ShortArgs
  {
    hide Bulk;
    hide ParseArgs;
    var b := Bulk(argv[0]);
    if k < |b| {
      assert Bulks(argv)[..k] == b[..k];
      ReadCutBulk(argv[0], k, |argv|);
    } else {
      assert Bulks(argv)[..k] == b + Bulks(argv[1..])[..k - |b|];
      ReadBulk(argv[0], Bulks(argv[1..])[..k - |b|], |argv|);
      ReadCutBulks(argv[1..], k - |b|);
    }
  }

  lemma NoArgs(n: int)
    ensures n >= 1 ==> ParseArgs("", n) == ShortArgs
  {
  }

  /** A command cut anywhere inside is a short read, never a shorter command. */
  lemma ReadCutCommand(argv: Argv, k: nat)
    requires Storable(Cmd(argv)) && 1 <= k < |EncodeItem(Cmd(argv))|
    ensures ParseItem(EncodeItem(Cmd(argv))[..k]) == Short
  {
    hide Bulks;
    hide ParseArgs;
    var h, p := Header('*', |argv|), EncodeItem(Cmd(argv))[..k];
    if k < |h| {
      assert p == h[..k];
      ReadCutHeader('*', |argv|, k);
      if k >= 2 { assert p[1] == h[1] == Dec(|argv|)[0]; }
      NoArgs(Atoi(p[1..]));
    } else {
      var body := Bulks(argv)[..k - |h|];
      assert p == h + body;
      ReadCommandHeader(|argv|, body);
      ReadCutBulks(argv, k - |h|);
    }
  }

  /** A note cut anywhere inside is still skipped. */
  lemma ReadCutNote(ts: nat, k: nat)
    requires ts < LIMIT && 1 <= k < |EncodeItem(Note(ts))|
    ensures ParseItem(EncodeItem(Note(ts))[..k]) == Skip("")
  {
    DecFits(ts);
    var p := EncodeItem(Note(ts))[..k];
    LineEndsAtEof(p, LINE_MAX);
    assert p[0] == '#';
  }

  lemma ReadNothing()
    ensures ParseItem("") == End
  {
  }
}
