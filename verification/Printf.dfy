/** The two passes of printf over a format string, and the text they are meant to give. */
module Printf {

  const WORDS := 0x1_0000_0000

  type Word = w: int | 0 <= w < WORDS

  /** On this 32-bit target both have 4 bytes. */
  const SIZEOF_INT := 4
  const SIZEOF_LONG := 4

  const NUL := 0 as char

  /** A variable argument: a word, or a pointer to a string. */
  datatype Arg = Num(bits: Word) | Str(s: string)

  /** The signed value of a word. */
  function Signed(w: Word): int { if w < 0x8000_0000 then w else w - WORDS }

  function Digit(d: int): (c: char)
    requires 0 <= d < 16
    ensures c != NUL
  {
    if d < 10 then '0' + d as char else 'a' + (d - 10) as char
  }

  // ---------- Numbers as text ----------

  /** Decimal digits without leading zeros. */
  function Decimal(u: nat): (t: string)
    ensures |t| > 0 && NUL !in t
  {
    if u < 10 then [Digit(u)] else Decimal(u / 10) + [Digit(u % 10)]
  }

  function SignedDecimal(n: int): (t: string)
    ensures NUL !in t
  {
    if n < 0 then "-" + Decimal(-n) else Decimal(n)
  }

  /** The k low hexadecimal digits. */
  function Hex(u: nat, k: nat): (t: string)
    ensures |t| == k && NUL !in t
  {
    if k == 0 then [] else Hex(u / 16, k - 1) + [Digit(u % 16)]
  }

  // ---------- Reading numbers back ----------

  function DigitValue(c: char): nat {
    if '0' <= c <= '9' then c as int - '0' as int else if 'a' <= c <= 'f' then c as int - 'a' as int + 10 else 0
  }

  function Value(t: string, base: nat): nat {
    if t == [] then 0 else Value(t[..|t| - 1], base) * base + DigitValue(t[|t| - 1])
  }

  function SignedValue(t: string): int {
    if t != [] && t[0] == '-' then -(Value(t[1..], 10) as int) else Value(t, 10)
  }

  lemma DigitReads(d: int)
    requires 0 <= d < 16
    ensures DigitValue(Digit(d)) == d && Digit(d) != '-'
  {
  }

  lemma {:induction false} DecimalReads(u: nat)
    ensures Value(Decimal(u), 10) == u && Decimal(u)[0] != '-' && (u > 0 ==> Decimal(u)[0] != '0')
  {
    if u < 10 {
    } else {
      DecimalReads(u / 10);
      assert Decimal(u)[..|Decimal(u)| - 1] == Decimal(u / 10);
    }
  }

  /** What %d prints reads back as the number printed. */
  lemma SignedDecimalReads(n: int)
    ensures SignedValue(SignedDecimal(n)) == n
  {
    if n < 0 {
      DecimalReads(-n);
      assert SignedDecimal(n)[1..] == Decimal(-n);
    } else {
      DecimalReads(n);
    }
  }

  function Pow16(k: nat): nat { if k == 0 then 1 else 16 * Pow16(k - 1) }

  lemma {:induction false} HexReads(u: nat, k: nat)
    requires u < Pow16(k)
    ensures Value(Hex(u, k), 16) == u
  {
    if k == 0 {
    } else {
      HexReads(u / 16, k - 1);
      DigitReads(u % 16);
      assert Hex(u, k)[..k - 1] == Hex(u / 16, k - 1);
    }
  }

  // ---------- The formatted text ----------

  predicate IsString(s: string) { NUL !in s }

  /** Conversions that take a word or a string. */
  predicate Converts(c: char) { c == 'p' || c == 'x' || c == 'd' || c == 'u' || c == 's' }

  /** The argument suits the conversion; %d has no text for the most negative number. */
  predicate Suits(c: char, a: Arg) {
    if c == 's' then a.Str? && IsString(a.s)
    else a.Num? && (c == 'd' ==> a.bits != 0x8000_0000)
  }

  /** The text of one conversion. */
  function Piece(c: char, a: Arg): (t: string)
    requires Converts(c) && Suits(c, a)
  {
    if c == 'p' then "0x" + Hex(a.bits, 8)
    else if c == 'x' then Hex(a.bits, 8)
    else if c == 'd' then SignedDecimal(Signed(a.bits))
    else if c == 'u' then Decimal(a.bits)
    else a.s
  }

  function Char(a: Arg): char
    requires a.Num?
  {
    (a.bits % 256) as char
  }

  /** The arguments suit the conversions of s, where format tells whether a % is open. */
  predicate Matches(s: string, format: bool, args: seq<Arg>) {
    s == [] || (
      if !format then s[0] != NUL && Matches(s[1..], s[0] == '%', args)
      else if Converts(s[0]) then args != [] && Suits(s[0], args[0]) && Matches(s[1..], false, args[1..])
      else if s[0] == 'c' then args != [] && args[0].Num? && Matches(s[1..], false, args[1..])
      else s[0] != NUL && Matches(s[1..], true, args))
  }

  /** The text that a format stands for. Any character that is no conversion leaves the % open. */
  function Format(s: string, format: bool, args: seq<Arg>): string
    requires Matches(s, format, args)
  {
    if s == [] then []
    else if !format then
      if s[0] == '%' then Format(s[1..], true, args) else [s[0]] + Format(s[1..], false, args)
    else if Converts(s[0]) then Piece(s[0], args[0]) + Format(s[1..], false, args[1..])
    else if s[0] == 'c' then [Char(args[0])] + Format(s[1..], false, args[1..])
    else Format(s[1..], true, args)
  }

  // ---------- What one pass does ----------

  /** As Matches, for a pass with room for so many characters: %c takes its argument only if its character
      is written. */
  predicate Readable(s: string, format: bool, args: seq<Arg>, room: int)
  {
    s == [] || (
      if !format then
        s[0] != NUL && if s[0] == '%' then Readable(s[1..], true, args, room)
                       else Readable(s[1..], false, args, room - 1)
      else if Converts(s[0]) then
        args != [] && Suits(s[0], args[0]) && Readable(s[1..], false, args[1..], room - |Piece(s[0], args[0])|)
      else if s[0] == 'c' then
        if room > 0 then args != [] && args[0].Num? && Readable(s[1..], false, args[1..], room - 1)
        else Readable(s[1..], false, args, room - 1)
      else s[0] != NUL && Readable(s[1..], true, args, room))
  }

  /** The characters a pass counts; what a %c without room would print does not matter. */
  function Scan(s: string, format: bool, args: seq<Arg>, room: int): string
    requires Readable(s, format, args, room)
  {
    if s == [] then []
    else if !format then
      if s[0] == '%' then Scan(s[1..], true, args, room) else [s[0]] + Scan(s[1..], false, args, room - 1)
    else if Converts(s[0]) then
      var t := Piece(s[0], args[0]);
      t + Scan(s[1..], false, args[1..], room - |t|)
    else if s[0] == 'c' then
      if room > 0 then [Char(args[0])] + Scan(s[1..], false, args[1..], room - 1)
      else "?" + Scan(s[1..], false, args, room - 1)
    else Scan(s[1..], true, args, room)
  }

  /** No conversion of varying length behind a %c. */
  predicate CharsLast(s: string, format: bool, seen: bool) {
    s == [] || (
      if !format then CharsLast(s[1..], s[0] == '%', seen)
      else if Converts(s[0]) then (seen ==> s[0] == 'x' || s[0] == 'p') && CharsLast(s[1..], false, seen)
      else if s[0] == 'c' then CharsLast(s[1..], false, true)
      else CharsLast(s[1..], true, seen))
  }

  /** Behind a %c the length does not depend on the arguments read. */
  lemma {:induction false} LengthFixed(s: string, format: bool, args: seq<Arg>, room: int, full: seq<Arg>)
    requires CharsLast(s, format, true) && Readable(s, format, args, room) && Matches(s, format, full)
    ensures |Scan(s, format, args, room)| == |Format(s, format, full)|
    decreases |s|
  {
    if s == [] {
    } else {
      if !format {
        LengthFixed(s[1..], s[0] == '%', args, if s[0] == '%' then room else room - 1, full);
      } else if Converts(s[0]) {
        LengthFixed(s[1..], false, args[1..], room - |Piece(s[0], args[0])|, full[1..]);
      } else if s[0] == 'c' {
        if room > 0 { LengthFixed(s[1..], false, args[1..], room - 1, full[1..]); }
        else { LengthFixed(s[1..], false, args, room - 1, full[1..]); }
      } else {
        LengthFixed(s[1..], true, args, room, full);
      }
    }
  }

  /** With no conversion of varying length behind a %c, every pass counts exactly the characters of the
      formatted text, and those there is room for are the right ones. */
  lemma {:induction false} ScanAgrees(s: string, format: bool, args: seq<Arg>, room: int, seen: bool)
    requires CharsLast(s, format, seen) && Readable(s, format, args, room) && Matches(s, format, args)
    ensures var t, f := Scan(s, format, args, room), Format(s, format, args);
      |t| == |f| && forall j :: 0 <= j < |t| && j < room ==> t[j] == f[j]
    decreases |s|
  {
    if s == [] {
    } else {
      if !format {
        ScanAgrees(s[1..], s[0] == '%', args, if s[0] == '%' then room else room - 1, seen);
      } else if Converts(s[0]) {
        ScanAgrees(s[1..], false, args[1..], room - |Piece(s[0], args[0])|, seen);
      } else if s[0] == 'c' {
        if room > 0 { ScanAgrees(s[1..], false, args[1..], room - 1, true); }
        else { LengthFixed(s[1..], false, args, room - 1, args[1..]); }
      } else {
        ScanAgrees(s[1..], true, args, room, seen);
      }
    }
  }

  // ---------- Any such format with suitable arguments can be measured ----------

  /** How many arguments the conversions of s take. */
  function Taken(s: string, format: bool): nat {
    if s == [] then 0
    else if !format then Taken(s[1..], s[0] == '%')
    else if Converts(s[0]) || s[0] == 'c' then 1 + Taken(s[1..], false)
    else Taken(s[1..], true)
  }

  ghost predicate Words(args: seq<Arg>, n: nat) {
    n <= |args| && forall i :: 0 <= i < n ==> args[i].Num?
  }

  lemma {:induction false} MatchesWords(s: string, format: bool, args: seq<Arg>)
    requires CharsLast(s, format, true) && Matches(s, format, args)
    ensures Words(args, Taken(s, format))
    decreases |s|
  {
    if s == [] {
    } else {
      if !format {
        MatchesWords(s[1..], s[0] == '%', args);
      } else if Converts(s[0]) || s[0] == 'c' {
        MatchesWords(s[1..], false, args[1..]);
        assert forall i :: 0 <= i < |args| - 1 ==> args[1..][i] == args[i + 1];
        assert forall i :: 1 <= i < |args| ==> args[i] == args[1..][i - 1];
      } else {
        MatchesWords(s[1..], true, args);
      }
    }
  }

  /** Behind a %c any words do. */
  lemma {:induction false} WordsReadable(s: string, format: bool, args: seq<Arg>, room: int, full: seq<Arg>)
    requires CharsLast(s, format, true) && Matches(s, format, full) && Words(args, Taken(s, format))
    ensures Readable(s, format, args, room)
    decreases |s|
  {
    if s == [] {
    } else {
      if !format {
        WordsReadable(s[1..], s[0] == '%', args, if s[0] == '%' then room else room - 1, full);
      } else if Converts(s[0]) {
        WordsReadable(s[1..], false, args[1..], room - |Piece(s[0], args[0])|, full[1..]);
      } else if s[0] == 'c' {
        WordsReadable(s[1..], false, if room > 0 then args[1..] else args, room - 1, full[1..]);
      } else {
        WordsReadable(s[1..], true, args, room, full);
      }
    }
  }

  lemma {:induction false} AlwaysReadable(s: string, format: bool, args: seq<Arg>, room: int, seen: bool)
    requires CharsLast(s, format, seen) && Matches(s, format, args)
    ensures Readable(s, format, args, room)
    decreases |s|
  {
    if s == [] {
    } else {
      if !format {
        AlwaysReadable(s[1..], s[0] == '%', args, if s[0] == '%' then room else room - 1, seen);
      } else if Converts(s[0]) {
        AlwaysReadable(s[1..], false, args[1..], room - |Piece(s[0], args[0])|, seen);
      } else if s[0] == 'c' {
        if room > 0 {
          AlwaysReadable(s[1..], false, args[1..], room - 1, true);
        } else {
          MatchesWords(s[1..], false, args[1..]);
          assert forall i :: 1 <= i < |args| ==> args[i] == args[1..][i - 1];
          WordsReadable(s[1..], false, args, room - 1, args[1..]);
        }
      } else {
        AlwaysReadable(s[1..], true, args, room, seen);
      }
    }
  }

  // ---------- Any other format is measured wrongly for some arguments ----------

  /** Suitable arguments for any format: zeros and empty strings. */
  function PlainArgs(s: string, format: bool): (args: seq<Arg>)
    requires IsString(s)
    ensures Matches(s, format, args)
  {
    if s == [] then []
    else if !format then PlainArgs(s[1..], s[0] == '%')
    else if Converts(s[0]) || s[0] == 'c' then
      [if s[0] == 's' then Str("") else Num(0)] + PlainArgs(s[1..], false)
    else PlainArgs(s[1..], true)
  }

  /** A pass without room cannot read its arguments from args, or counts another number than the text has for full. */
  ghost predicate Mismeasures(s: string, format: bool, args: seq<Arg>, room: int, full: seq<Arg>)
    requires Matches(s, format, full)
  {
    Readable(s, format, args, room) ==> |Scan(s, format, args, room)| != |Format(s, format, full)|
  }

  function Zeros(k: nat): (args: seq<Arg>)
    ensures |args| == k && forall i :: 0 <= i < k ==> args[i] == Num(0)
  {
    seq(k, _ => Num(0))
  }

  /** Behind a %c, with k words left over: the last conversion of varying length reads 0 for 10, or a word for
      a string. */
  lemma {:induction false} WrongBehind(s: string, format: bool, k: nat, room: int) returns (full: seq<Arg>)
    requires IsString(s) && !CharsLast(s, format, true) && k > 0 && room <= 0
    ensures Matches(s, format, full) && Mismeasures(s, format, Zeros(k) + full, room, full)
    decreases |s|
  {
    if !format {
      full := WrongBehind(s[1..], s[0] == '%', k, if s[0] == '%' then room else room - 1);
    } else if Converts(s[0]) {
      full := WrongConversion(s, k, room);
    } else if s[0] == 'c' {
      var rest := WrongBehind(s[1..], false, k + 1, room - 1);
      full := [Num(0)] + rest;
      assert Zeros(k) + full == Zeros(k + 1) + rest;
    } else {
      full := WrongBehind(s[1..], true, k, room);
    }
  }

  lemma {:induction false} WrongConversion(s: string, k: nat, room: int) returns (full: seq<Arg>)
    requires IsString(s) && s != [] && Converts(s[0]) && !CharsLast(s, true, true) && k > 0 && room <= 0
    ensures Matches(s, true, full) && Mismeasures(s, true, Zeros(k) + full, room, full)
    decreases |s|, 0
  {
    if s[0] == 's' {
      full := [Str("")] + PlainArgs(s[1..], false);
      assert (Zeros(k) + full)[0] == Num(0);
    } else if CharsLast(s[1..], false, true) {
      full := LastVarying(s, k, room);
    } else {
      var rest := WrongBehind(s[1..], false, k, room - |Piece(s[0], Num(0))|);
      full := [Num(0)] + rest;
      assert (Zeros(k) + full)[0] == Num(0) && (Zeros(k) + full)[1..] == Zeros(k) + rest;
    }
  }

  lemma LastVarying(s: string, k: nat, room: int) returns (full: seq<Arg>)
    requires IsString(s) && s != [] && (s[0] == 'd' || s[0] == 'u') && CharsLast(s[1..], false, true) && k > 0
    ensures Matches(s, true, full) && Mismeasures(s, true, Zeros(k) + full, room, full)
  {
    var rest := PlainArgs(s[1..], false);
    full := [Num(10)] + rest;
    var args := Zeros(k) + full;
    assert args[0] == Num(0);
    assert |Piece(s[0], Num(0))| == 1 && |Piece(s[0], Num(10))| == 2;
    if Readable(s, true, args, room) {
      LengthFixed(s[1..], false, args[1..], room - 1, rest);
    }
  }

  lemma {:induction false} WrongArgs(s: string, format: bool, room: int) returns (args: seq<Arg>)
    requires IsString(s) && !CharsLast(s, format, false) && room <= 0
    ensures Matches(s, format, args) && Mismeasures(s, format, args, room, args)
    decreases |s|
  {
    if !format {
      args := WrongArgs(s[1..], s[0] == '%', if s[0] == '%' then room else room - 1);
    } else if Converts(s[0]) {
      var a := if s[0] == 's' then Str("") else Num(0);
      var rest := WrongArgs(s[1..], false, room - |Piece(s[0], a)|);
      args := [a] + rest;
    } else if s[0] == 'c' {
      var rest := WrongBehind(s[1..], false, 1, room - 1);
      args := [Num(0)] + rest;
      assert args == Zeros(1) + rest;
    } else {
      args := WrongArgs(s[1..], true, room);
    }
  }

  /** The measuring pass counts exactly the formatted text for all suitable arguments. */
  ghost predicate MeasuredRight(s: string) {
    forall args :: Matches(s, false, args) ==>
      Readable(s, false, args, 0) && |Scan(s, false, args, 0)| == |Format(s, false, args)|
  }

  /** The measuring pass is right for all suitable arguments if and only if no %d, %u or %s stands behind a %c. */
  lemma MeasuredRightIff(s: string)
    requires IsString(s)
    ensures CharsLast(s, false, false) <==> MeasuredRight(s)
  {
    if CharsLast(s, false, false) {
      forall args | Matches(s, false, args)
        ensures Readable(s, false, args, 0) && |Scan(s, false, args, 0)| == |Format(s, false, args)|
      {
        AlwaysReadable(s, false, args, 0, false);
        ScanAgrees(s, false, args, 0, false);
      }
    } else {
      var args := WrongArgs(s, false, 0);
    }
  }

  // ---------- Hexadecimal digits by shifting ----------

  /** num >> (4 * i), an arithmetic shift */
  function ShiftRight(num: int, i: nat): int
    decreases i
  {
    if i == 0 then num else ShiftRight(num / 16, i - 1)
  }

  lemma {:induction false} ShiftWraps(num: int, i: nat, k: nat)
    requires i <= k
    ensures ShiftRight(num - Pow16(k), i) == ShiftRight(num, i) - Pow16(k - i)
    decreases i
  {
    if i == 0 {
    } else {
      assert (num - Pow16(k)) / 16 == num / 16 - Pow16(k - 1);
      ShiftWraps(num / 16, i - 1, k - 1);
    }
  }

  lemma {:induction false} HexDigits(u: nat, i: nat, k: nat)
    requires i < k
    ensures Hex(u, k)[k - 1 - i] == Digit(ShiftRight(u, i) % 16)
    decreases i
  {
    if i == 0 {
    } else {
      HexDigits(u / 16, i - 1, k - 1);
    }
  }

  /** The i-th digit from the right, also of a negative number. */
  lemma WordDigit(w: Word, i: nat)
    requires i < 8
    ensures Hex(w, 8)[7 - i] == Digit(ShiftRight(Signed(w), i) % 16)
  {
    HexDigits(w, i, 8);
    WordPower();
    ShiftWraps(w, i, 8);
    PowerStep(8 - i);
    hide Pow16, Hex, ShiftRight, Signed, Digit;
    SameDigit(ShiftRight(w, i), Pow16(8 - i - 1));
    assert Signed(w) == w || Signed(w) == w - Pow16(8) by { WordSigned(w); }
  }

  lemma WordSigned(w: Word)
    ensures Signed(w) == w || Signed(w) == w - WORDS
  {
  }

  lemma PowerStep(k: nat)
    requires k > 0
    ensures Pow16(k) == 16 * Pow16(k - 1)
  {
  }

  lemma SameDigit(x: int, y: int)
    ensures (x - 16 * y) % 16 == x % 16
  {
  }

  lemma WordPower()
    ensures Pow16(8) == WORDS
  {
    assert Pow16(4) == 0x1_0000;
  }

  /** What %x prints reads back as the word printed. */
  lemma HexWordReads(w: Word)
    ensures Value(Hex(w, 8), 16) == w
  {
    WordPower();
    HexReads(w, 8);
  }

  // ---------- The passes ----------

  /** Buffer b is o with the part of t below n in front. */
  ghost predicate Shows(b: seq<char>, t: string, n: nat, o: seq<char>) {
    |b| == |o| && forall j :: 0 <= j < |b| ==> b[j] == if j < n && j < |t| then t[j] else o[j]
  }

  ghost function Buffer(out: array?<char>): seq<char>
    reads if out == null then {} else {out}
  {
    if out == null then [] else out[..]
  }

  method PutChar(out: array?<char>, n: nat, pos: nat, c: char, ghost t: string, ghost o: seq<char>) returns (next: nat)
    requires (out != null ==> n <= out.Length) && pos == |t| && Shows(Buffer(out), t, n, o)
    modifies if out == null then {} else {out}
    ensures next == pos + 1 && Shows(Buffer(out), t + [c], n, o)
  {
    if out != null && pos < n {
      out[pos] := c;
    }
    next := pos + 1;
  }

  method PutHex(out: array?<char>, n: nat, pos: nat, w: Word, longarg: bool, ghost t: string, ghost o: seq<char>)
    returns (next: nat)
    requires (out != null ==> n <= out.Length) && pos == |t| && Shows(Buffer(out), t, n, o)
    modifies if out == null then {} else {out}
    ensures next == pos + 8 && Shows(Buffer(out), t + Hex(w, 8), n, o)
  {
    var num := Signed(w);
    next := pos;
    var hexdigits := 2 * (if longarg then SIZEOF_LONG else SIZEOF_INT) - 1;
    for i := hexdigits + 1 downto 0
      invariant next == pos + 8 - i && Shows(Buffer(out), t + Hex(w, 8)[..8 - i], n, o)
    {
      var d := ShiftRight(num, i) % 16;
      WordDigit(w, i);
      ghost var done := t + Hex(w, 8)[..7 - i];
      next := PutChar(out, n, next, Digit(d), done, o);
      assert done + [Digit(d)] == t + Hex(w, 8)[..8 - i];
    }
    assert Hex(w, 8)[..8] == Hex(w, 8);
  }

  /** How many decimal digits num has. */
  method CountDigits(num: nat) returns (digits: nat)
    ensures digits == |Decimal(num)|
  {
    digits := 1;
    var nn: nat := num / 10;
    while nn != 0
      invariant |Decimal(num)| == digits + if nn == 0 then 0 else |Decimal(nn)|
    {
      digits := digits + 1;
      nn := nn / 10;
    }
  }

  /** The digits of num, written from the last one on. */
  method PutDecimal(out: array?<char>, n: nat, pos: nat, num: nat, ghost t: string, ghost o: seq<char>)
    returns (next: nat)
    requires (out != null ==> n <= out.Length) && pos == |t| && Shows(Buffer(out), t, n, o)
    modifies if out == null then {} else {out}
    ensures next == pos + |Decimal(num)| && Shows(Buffer(out), t + Decimal(num), n, o)
  {
    var digits := CountDigits(num);
    var rest := num;
    ghost var f := t + Decimal(num);
    for i := digits downto 0
      invariant rest >= 0 && (i > 0 ==> Decimal(rest) == Decimal(num)[..i])
      invariant |Buffer(out)| == |o|
      invariant forall j :: 0 <= j < |o| ==>
        Buffer(out)[j] == if j < n && (j < pos || pos + i <= j < pos + digits) then f[j] else o[j]
    {
      LastDigit(num, rest, i);
      if out != null && pos + i < n {
        out[pos + i] := '0' + (rest % 10) as char;
      }
      rest := rest / 10;
    }
    next := pos + digits;
  }

  lemma LastDigit(num: nat, rest: nat, i: nat)
    requires i < |Decimal(num)| && Decimal(rest) == Decimal(num)[..i + 1]
    ensures Decimal(num)[i] == '0' + (rest % 10) as char
    ensures i > 0 ==> Decimal(rest / 10) == Decimal(num)[..i]
  {
    assert Decimal(num)[i] == Decimal(rest)[i];
    if i > 0 {
      assert Decimal(num)[..i] == Decimal(rest)[..i];
    }
  }

  method PutString(out: array?<char>, n: nat, pos: nat, s: string, ghost t: string, ghost o: seq<char>)
    returns (next: nat)
    requires (out != null ==> n <= out.Length) && pos == |t| && Shows(Buffer(out), t, n, o)
    modifies if out == null then {} else {out}
    ensures next == pos + |s| && Shows(Buffer(out), t + s, n, o)
  {
    next := pos;
    for i := 0 to |s|
      invariant next == pos + i && Shows(Buffer(out), t + s[..i], n, o)
    {
      next := PutChar(out, n, next, s[i], t + s[..i], o);
      assert t + s[..i] + [s[i]] == t + s[..i + 1];
    }
    assert s[..|s|] == s;
  }

  /** The characters a pass has room for at the start. */
  function Room(out: array?<char>, n: nat): nat { if out == null then 0 else n }

  /** Buffer b is o with the part of t that fits in front, closed by a terminator; nothing behind n changes. */
  ghost predicate Terminated(b: seq<char>, t: string, n: nat, o: seq<char>)
    requires n <= |o|
  {
    if |t| < n then b == t + [NUL] + o[|t| + 1..]
    else if n > 0 then b == t[..n - 1] + [NUL] + o[n..]
    else b == o
  }

  /** _vsnprintf: returns the length of the whole text and writes what fits, always with a terminator. */
  method VsnPrintf(out: array?<char>, n: nat, s: string, args: seq<Arg>) returns (pos: nat)
    requires out != null ==> n <= out.Length
    requires Readable(s, false, args, Room(out, n))
    modifies if out == null then {} else {out}
    ensures pos == |Scan(s, false, args, Room(out, n))|
    ensures out != null ==> Terminated(out[..], Scan(s, false, args, Room(out, n)), n, old(out[..]))
    ensures Matches(s, false, args) && CharsLast(s, false, false) ==>
      && pos == |Format(s, false, args)|
      && (out != null ==> Terminated(out[..], Format(s, false, args), n, old(out[..])))
  {
    hide Going, Readable, Scan, Shows, Suits, Piece, Terminated, Matches, CharsLast, Format;
    ghost var o := Buffer(out);
    ghost var t := "";
    ghost var room := Room(out, n);
    ShowsStart(o, n);
    GoingStarts(s, args, room);
    var format, longarg := false, false;
    var vl := args;
    pos := 0;
    for i := 0 to |s|
      invariant pos == |t| && Shows(Buffer(out), t, n, o)
      invariant Going(s, args, room, i, format, vl, t)
    {
      ScanNext(s, args, room, i, format, vl, t);
      if format && s[i] == 'l' {
        longarg := true;
      } else if format && Converts(s[i]) {
        pos := PutConversion(out, n, pos, s[i], vl[0], longarg, t, o);
        t := t + Piece(s[i], vl[0]);
        vl := vl[1..];
        format, longarg := false, false;
      } else if format && s[i] == 'c' {
        if out != null && pos < n {
          pos := PutChar(out, n, pos, Char(vl[0]), t, o);
          t := t + [Char(vl[0])];
          vl := vl[1..];
        } else {
          NoRoom(out, n, t, o);
          pos := pos + 1;
          t := t + "?";
        }
        format, longarg := false, false;
      } else if !format && s[i] == '%' {
        format := true;
      } else if !format {
        pos := PutChar(out, n, pos, s[i], t, o);
        t := t + [s[i]];
      }
    }
    GoingEnds(s, args, room, format, vl, t);
    Terminate(out, n, pos, t, o);
    if Matches(s, false, args) && CharsLast(s, false, false) {
      BoundedIsFormat(s, args, room);
    }
  }

  /** With suitable arguments and no conversion of varying length behind a %c, a pass with any bound counts the
      whole formatted text and leaves the same buffer as that text. */
  lemma BoundedIsFormat(s: string, args: seq<Arg>, room: nat)
    requires Matches(s, false, args) && CharsLast(s, false, false)
    ensures Readable(s, false, args, room) && |Scan(s, false, args, room)| == |Format(s, false, args)|
    ensures forall b, o :: room <= |o| && Terminated(b, Scan(s, false, args, room), room, o) ==>
      Terminated(b, Format(s, false, args), room, o)
  {
    AlwaysReadable(s, false, args, room, false);
    ScanAgrees(s, false, args, room, false);
    hide Readable, Scan, Matches, CharsLast, Format;
    var t, f := Scan(s, false, args, room), Format(s, false, args);
    if |t| < room {
      assert t == f;
    } else if room > 0 {
      assert t[..room - 1] == f[..room - 1];
    }
  }

  /** The terminator behind the text, or in the last place. */
  method Terminate(out: array?<char>, n: nat, pos: nat, ghost t: string, ghost o: seq<char>)
    requires (out != null ==> n <= out.Length) && pos == |t| && Shows(Buffer(out), t, n, o)
    modifies if out == null then {} else {out}
    ensures out != null ==> n <= |o| && Terminated(out[..], t, n, o)
  {
    if out != null && pos < n {
      out[pos] := NUL;
    } else if out != null && n > 0 {
      out[n - 1] := NUL;
    }
  }

  lemma ShowsStart(o: seq<char>, n: nat)
    ensures Shows(o, "", n, o)
  {
  }

  /** %d */
  method PutSigned(out: array?<char>, n: nat, pos: nat, num: int, ghost t: string, ghost o: seq<char>)
    returns (next: nat)
    requires (out != null ==> n <= out.Length) && pos == |t| && Shows(Buffer(out), t, n, o)
    modifies if out == null then {} else {out}
    ensures next == pos + |SignedDecimal(num)| && Shows(Buffer(out), t + SignedDecimal(num), n, o)
  {
    hide Shows, Decimal, Buffer;
    if num < 0 {
      next := PutChar(out, n, pos, '-', t, o);
      next := PutDecimal(out, n, next, -num, t + "-", o);
      MinusInFront(t, num);
    } else {
      next := PutDecimal(out, n, pos, num, t, o);
    }
  }

  lemma MinusInFront(t: string, num: int)
    requires num < 0
    ensures t + "-" + Decimal(-num) == t + SignedDecimal(num)
    ensures |SignedDecimal(num)| == 1 + |Decimal(-num)|
  {
  }

  /** %p */
  method PutPointer(out: array?<char>, n: nat, pos: nat, w: Word, ghost t: string, ghost o: seq<char>)
    returns (next: nat)
    requires (out != null ==> n <= out.Length) && pos == |t| && Shows(Buffer(out), t, n, o)
    modifies if out == null then {} else {out}
    ensures next == pos + 10 && Shows(Buffer(out), t + ("0x" + Hex(w, 8)), n, o)
  {
    hide Shows;
    next := PutChar(out, n, pos, '0', t, o);
    next := PutChar(out, n, next, 'x', t + "0", o);
    next := PutHex(out, n, next, w, true, t + "0" + "x", o);
    assert t + "0" + "x" + Hex(w, 8) == t + ("0x" + Hex(w, 8));
  }

  /** One conversion other than %c. */
  method PutConversion(out: array?<char>, n: nat, pos: nat, c: char, a: Arg, longarg: bool,
      ghost t: string, ghost o: seq<char>)
    returns (next: nat)
    requires (out != null ==> n <= out.Length) && pos == |t| && Shows(Buffer(out), t, n, o)
    requires Converts(c) && Suits(c, a)
    modifies if out == null then {} else {out}
    ensures next == pos + |Piece(c, a)| && Shows(Buffer(out), t + Piece(c, a), n, o)
  {
    hide Shows;
    if c == 's' {
      next := PutString(out, n, pos, a.s, t, o);
    } else if c == 'u' {
      next := PutDecimal(out, n, pos, a.bits, t, o);
    } else if c == 'd' {
      next := PutSigned(out, n, pos, Signed(a.bits), t, o);
    } else if c == 'p' {
      next := PutPointer(out, n, pos, a.bits, t, o);
    } else {
      next := PutHex(out, n, pos, a.bits, longarg, t, o);
    }
  }

  /** A character that is not written changes no buffer. */
  lemma NoRoom(out: array?<char>, n: nat, t: string, o: seq<char>)
    requires Shows(Buffer(out), t, n, o) && (out == null || |t| >= n)
    ensures Shows(Buffer(out), t + "?", n, o)
  {
  }

  /** Behind i characters the text so far is t, and format and vl tell how to go on. */
  ghost predicate Going(s: string, args: seq<Arg>, room: int, i: nat, format: bool, vl: seq<Arg>, t: string) {
    && Readable(s, false, args, room) && i <= |s| && Readable(s[i..], format, vl, room - |t|)
    && Scan(s, false, args, room) == t + Scan(s[i..], format, vl, room - |t|)
  }

  /** How the pass goes on behind the i-th character. */
  lemma ScanNext(s: string, args: seq<Arg>, room: int, i: nat, format: bool, vl: seq<Arg>, t: string)
    requires i < |s| && Going(s, args, room, i, format, vl, t)
    ensures !format && s[i] == '%' ==> Going(s, args, room, i + 1, true, vl, t)
    ensures !format && s[i] != '%' ==> Going(s, args, room, i + 1, false, vl, t + [s[i]])
    ensures format && Converts(s[i]) ==>
      vl != [] && Suits(s[i], vl[0]) && Going(s, args, room, i + 1, false, vl[1..], t + Piece(s[i], vl[0]))
    ensures format && s[i] == 'c' && |t| < room ==>
      vl != [] && vl[0].Num? && Going(s, args, room, i + 1, false, vl[1..], t + [Char(vl[0])])
    ensures format && s[i] == 'c' && room <= |t| ==> Going(s, args, room, i + 1, false, vl, t + "?")
    ensures format && !Converts(s[i]) && s[i] != 'c' ==> Going(s, args, room, i + 1, true, vl, t)
  {
    assert s[i..][1..] == s[i + 1..];
    hide Piece;
  }

  lemma GoingEnds(s: string, args: seq<Arg>, room: int, format: bool, vl: seq<Arg>, t: string)
    requires Going(s, args, room, |s|, format, vl, t)
    ensures Scan(s, false, args, room) == t
  {
  }

  lemma GoingStarts(s: string, args: seq<Arg>, room: int)
    requires Readable(s, false, args, room)
    ensures Going(s, args, room, 0, false, args, "")
  {
    assert s[0..] == s;
  }

  // ---------- printf ----------

  const OUT_BUF_SIZE := 1000

  /** What printf sends to the UART and returns; it hangs when the text does not fit its buffer. */
  datatype Result = Overflow | Printed(text: string, res: nat)

  /** What uart_puts sends of a string */
  function UpToNul(t: string): string {
    if t == [] || t[0] == NUL then [] else [t[0]] + UpToNul(t[1..])
  }

  function Prefix(t: string, n: nat): string { if |t| <= n then t else t[..n] }

  /** What the two passes read is there. */
  predicate Printable(s: string, args: seq<Arg>) {
    Readable(s, false, args, 0) && Readable(s, false, args, |Scan(s, false, args, 0)| + 1)
  }

  function Print(s: string, args: seq<Arg>): Result
    requires Printable(s, args)
  {
    var m := |Scan(s, false, args, 0)|;
    if m + 1 >= OUT_BUF_SIZE then Overflow
    else Printed(UpToNul(Prefix(Scan(s, false, args, m + 1), m)), m)
  }

  /** _vprintf */
  method Vprintf(outBuf: array<char>, s: string, args: seq<Arg>) returns (r: Result)
    requires outBuf.Length == OUT_BUF_SIZE && Printable(s, args)
    modifies outBuf
    ensures r == Print(s, args)
  {
    hide Readable, Scan, UpToNul;
    var res := VsnPrintf(null, 0, s, args);
    if res + 1 >= OUT_BUF_SIZE {
      return Overflow;
    }
    var again := VsnPrintf(outBuf, res + 1, s, args);
    ghost var t := Scan(s, false, args, res + 1);
    assert outBuf[..] == Prefix(t, res) + [NUL] + outBuf[|Prefix(t, res)| + 1..];
    UpToFirstNul(Prefix(t, res), outBuf[|Prefix(t, res)| + 1..]);
    var text := PutS(outBuf);
    r := Printed(text, res);
  }

  /** uart_puts */
  method PutS(a: array<char>) returns (text: string)
    requires NUL in a[..]
    ensures text == UpToNul(a[..])
  {
    text := "";
    var i := 0;
    while i < a.Length && a[i] != NUL
      invariant i <= a.Length && UpToNul(a[..]) == text + UpToNul(a[i..])
    {
      assert a[i..][1..] == a[i + 1..];
      text := text + [a[i]];
      i := i + 1;
    }
  }

  lemma {:induction false} UpToFirstNul(t: string, r: string)
    ensures UpToNul(t + [NUL] + r) == UpToNul(t)
    decreases |t|
  {
    var u := t + [NUL] + r;
    if t == [] || t[0] == NUL {
    } else {
      assert u[1..] == t[1..] + [NUL] + r;
      UpToFirstNul(t[1..], r);
    }
  }

  /** For every format without a conversion of varying length behind a %c, and suitable arguments, printf
      prints the formatted text and returns its length, unless it is too long for the buffer. */
  lemma PrintIsFormat(s: string, args: seq<Arg>)
    requires Matches(s, false, args) && CharsLast(s, false, false)
    ensures Printable(s, args)
    ensures var f := Format(s, false, args);
      Print(s, args) == if |f| + 1 >= OUT_BUF_SIZE then Overflow else Printed(UpToNul(f), |f|)
  {
    AlwaysReadable(s, false, args, 0, false);
    ScanAgrees(s, false, args, 0, false);
    var f := Format(s, false, args);
    AlwaysReadable(s, false, args, |f| + 1, false);
    ScanAgrees(s, false, args, |f| + 1, false);
    assert Scan(s, false, args, |f| + 1) == f;
  }

  /** No %c at all. */
  predicate NoChars(s: string, format: bool) {
    s == [] || (
      if !format then NoChars(s[1..], s[0] == '%')
      else s[0] != 'c' && NoChars(s[1..], !Converts(s[0])))
  }

  lemma {:induction false} NoCharsLast(s: string, format: bool)
    requires NoChars(s, format)
    ensures CharsLast(s, format, false)
    decreases |s|
  {
    if s == [] {
    } else {
      NoCharsLast(s[1..], if !format then s[0] == '%' else !Converts(s[0]));
    }
  }

  lemma {:induction false} TextHasNoNul(s: string, format: bool, args: seq<Arg>)
    requires NoChars(s, format) && Matches(s, format, args)
    ensures NUL !in Format(s, format, args)
    decreases |s|
  {
    if s == [] {
    } else {
      if !format {
        TextHasNoNul(s[1..], s[0] == '%', args);
      } else if Converts(s[0]) {
        TextHasNoNul(s[1..], false, args[1..]);
      } else {
        TextHasNoNul(s[1..], true, args);
      }
    }
  }

  lemma {:induction false} UpToNulWhole(t: string)
    requires NUL !in t
    ensures UpToNul(t) == t
    decreases |t|
  {
    if t == [] {
    } else {
      UpToNulWhole(t[1..]);
    }
  }

  /** Without %c the whole text is printed, for every format and suitable arguments. */
  lemma PrintIsWholeText(s: string, args: seq<Arg>)
    requires Matches(s, false, args) && NoChars(s, false)
    ensures Printable(s, args)
    ensures var f := Format(s, false, args);
      Print(s, args) == if |f| + 1 >= OUT_BUF_SIZE then Overflow else Printed(f, |f|)
  {
    NoCharsLast(s, false);
    PrintIsFormat(s, args);
    TextHasNoNul(s, false, args);
    UpToNulWhole(Format(s, false, args));
  }

  /** A %d behind a %c: the measuring pass reads the character's argument as the number, and the text is cut. */
  lemma CharMeasuredWrong()
    ensures var s, args := "%c%d", [Num(65), Num(123)];
      && Matches(s, false, args) && Printable(s, args)
      && Format(s, false, args) == "A123" && Print(s, args) == Printed("A12", 3)
  {
    CharWritten();
    CharMeasured();
    CharFormatted();
    hide Scan, Format, Readable, Matches;
    assert Prefix("A123", 3) == "A12";
    UpToNulWhole("A12");
  }

  lemma CharFormatted()
    ensures Matches("%c%d", false, [Num(65), Num(123)]) && Format("%c%d", false, [Num(65), Num(123)]) == "A123"
  {
    var args := [Num(65), Num(123)];
    assert "%c%d"[1..] == "c%d" && "c%d"[1..] == "%d" && "%d"[1..] == "d" && "d"[1..] == "";
    assert args[1..] == [Num(123)] && [Num(123)][1..] == [];
    SmallDecimals();
    assert Format("d", true, [Num(123)]) == "123" + Format("", false, []);
    assert Format("c%d", true, args) == "A" + Format("%d", false, [Num(123)]);
  }

  lemma CharMeasured()
    ensures Readable("%c%d", false, [Num(65), Num(123)], 0) && Scan("%c%d", false, [Num(65), Num(123)], 0) == "?65"
  {
    var args := [Num(65), Num(123)];
    assert "%c%d"[1..] == "c%d" && "c%d"[1..] == "%d" && "%d"[1..] == "d" && "d"[1..] == "";
    assert args[1..] == [Num(123)];
    SmallDecimals();
    assert Scan("d", true, args, -1) == "65" + Scan("", false, [Num(123)], -3);
    assert Scan("c%d", true, args, 0) == "?" + Scan("%d", false, args, -1);
  }

  lemma CharWritten()
    ensures Readable("%c%d", false, [Num(65), Num(123)], 4) && Scan("%c%d", false, [Num(65), Num(123)], 4) == "A123"
  {
    var args := [Num(65), Num(123)];
    assert "%c%d"[1..] == "c%d" && "c%d"[1..] == "%d" && "%d"[1..] == "d" && "d"[1..] == "";
    assert args[1..] == [Num(123)] && [Num(123)][1..] == [];
    SmallDecimals();
    assert Scan("d", true, [Num(123)], 3) == "123" + Scan("", false, [], 0);
    assert Scan("c%d", true, args, 4) == "A" + Scan("%d", false, [Num(123)], 3);
  }

  // ---------- Percent signs ----------

  /** As Matches, where a % met while a % is open stands for a percent sign, as in C (section 7.21.6.1 of
      ISO/IEC 9899:2011). */
  predicate StdMatches(s: string, format: bool, args: seq<Arg>) {
    s == [] || (
      if !format then s[0] != NUL && StdMatches(s[1..], s[0] == '%', args)
      else if Converts(s[0]) then args != [] && Suits(s[0], args[0]) && StdMatches(s[1..], false, args[1..])
      else if s[0] == 'c' then args != [] && args[0].Num? && StdMatches(s[1..], false, args[1..])
      else s[0] != NUL && StdMatches(s[1..], s[0] != '%', args))
  }

  /** As Format, where a % met while a % is open prints a percent sign and closes it. */
  function StdFormat(s: string, format: bool, args: seq<Arg>): string
    requires StdMatches(s, format, args)
  {
    if s == [] then []
    else if !format then
      if s[0] == '%' then StdFormat(s[1..], true, args) else [s[0]] + StdFormat(s[1..], false, args)
    else if Converts(s[0]) then Piece(s[0], args[0]) + StdFormat(s[1..], false, args[1..])
    else if s[0] == 'c' then [Char(args[0])] + StdFormat(s[1..], false, args[1..])
    else if s[0] == '%' then "%" + StdFormat(s[1..], false, args)
    else StdFormat(s[1..], true, args)
  }

  /** No % is met while a % is open. */
  predicate NoPercents(s: string, format: bool) {
    s == [] || (
      if !format then NoPercents(s[1..], s[0] == '%')
      else s[0] != '%' && NoPercents(s[1..], !Converts(s[0]) && s[0] != 'c'))
  }

  /** The format without each % that is met while a % is open. */
  function DropPercents(s: string, format: bool): string {
    if s == [] then []
    else if !format then [s[0]] + DropPercents(s[1..], s[0] == '%')
    else if s[0] == '%' then DropPercents(s[1..], true)
    else [s[0]] + DropPercents(s[1..], !Converts(s[0]) && s[0] != 'c')
  }

  /** Every format stands for what it would stand for with those signs deleted: it takes the same arguments and
      gives the same text. */
  lemma {:induction false} PercentsDropped(s: string, format: bool, args: seq<Arg>)
    ensures Matches(s, format, args) <==> StdMatches(DropPercents(s, format), format, args)
    ensures Matches(s, format, args) ==>
      Format(s, format, args) == StdFormat(DropPercents(s, format), format, args)
    decreases |s|
  {
    var u := DropPercents(s, format);
    if s == [] {
    } else if !format {
      assert u[1..] == DropPercents(s[1..], s[0] == '%');
      PercentsDropped(s[1..], s[0] == '%', args);
    } else if s[0] == '%' {
      PercentsDropped(s[1..], true, args);
    } else if Converts(s[0]) || s[0] == 'c' {
      assert u[1..] == DropPercents(s[1..], false);
      if args != [] {
        PercentsDropped(s[1..], false, args[1..]);
      }
    } else {
      assert u[1..] == DropPercents(s[1..], true);
      PercentsDropped(s[1..], true, args);
    }
  }

  lemma {:induction false} NothingToDrop(s: string, format: bool)
    requires NoPercents(s, format)
    ensures DropPercents(s, format) == s
    decreases |s|
  {
    if s == [] {
    } else {
      NothingToDrop(s[1..], if !format then s[0] == '%' else !Converts(s[0]) && s[0] != 'c');
    }
  }

  /** Zeros and empty strings */
  predicate Plain(args: seq<Arg>) { forall i :: 0 <= i < |args| ==> args[i] == Num(0) || args[i] == Str("") }

  /** From plain arguments the code prints no percent sign. */
  lemma {:induction false} PlainPrintsNone(s: string, format: bool, args: seq<Arg>)
    requires Matches(s, format, args) && Plain(args)
    ensures '%' !in Format(s, format, args)
    decreases |s|
  {
    if s == [] {
    } else if !format {
      PlainPrintsNone(s[1..], s[0] == '%', args);
    } else if Converts(s[0]) {
      PlainPrintsNone(s[1..], false, args[1..]);
      PieceHasNone(s[0], args[0]);
    } else if s[0] == 'c' {
      PlainPrintsNone(s[1..], false, args[1..]);
    } else {
      PlainPrintsNone(s[1..], true, args);
    }
  }

  lemma PieceHasNone(c: char, a: Arg)
    requires Converts(c) && Suits(c, a) && (a == Num(0) || a == Str(""))
    ensures '%' !in Piece(c, a)
  {
    HexHasNone(8);
  }

  lemma {:induction false} HexHasNone(k: nat)
    ensures '%' !in Hex(0, k)
  {
    if k > 0 {
      HexHasNone(k - 1);
    }
  }

  /** Plain arguments for the format with percent signs, which are printed if there are any. */
  lemma {:induction false} StdPlainArgs(s: string, format: bool) returns (args: seq<Arg>)
    requires IsString(s)
    ensures StdMatches(s, format, args) && Plain(args)
    ensures !NoPercents(s, format) ==> '%' in StdFormat(s, format, args)
    decreases |s|
  {
    if s == [] {
      args := [];
    } else if !format {
      args := StdPlainArgs(s[1..], s[0] == '%');
    } else if Converts(s[0]) || s[0] == 'c' {
      var rest := StdPlainArgs(s[1..], false);
      args := [if s[0] == 's' then Str("") else Num(0)] + rest;
      assert args[1..] == rest;
    } else {
      args := StdPlainArgs(s[1..], s[0] != '%');
    }
  }

  /** Whatever suits the format with percent signs suits the code, which gives the same text. */
  ghost predicate PercentsRight(s: string) {
    forall args :: StdMatches(s, false, args) ==>
      Matches(s, false, args) && Format(s, false, args) == StdFormat(s, false, args)
  }

  /** The code treats percent signs right for all suitable arguments if and only if no % is met while a % is
      open. */
  lemma PercentsRightIff(s: string)
    requires IsString(s)
    ensures NoPercents(s, false) <==> PercentsRight(s)
  {
    if NoPercents(s, false) {
      NothingToDrop(s, false);
      forall args | StdMatches(s, false, args)
        ensures Matches(s, false, args) && Format(s, false, args) == StdFormat(s, false, args)
      {
        PercentsDropped(s, false, args);
      }
    } else {
      var args := StdPlainArgs(s, false);
      if Matches(s, false, args) {
        PlainPrintsNone(s, false, args);
      }
    }
  }

  /** printf prints the text with percent signs when the format has none in an open conversion and no conversion of
      varying length behind a %c. */
  lemma PrintIsStandard(s: string, args: seq<Arg>)
    requires IsString(s) && StdMatches(s, false, args) && NoPercents(s, false) && CharsLast(s, false, false)
    ensures Printable(s, args)
    ensures var f := StdFormat(s, false, args);
      Print(s, args) == if |f| + 1 >= OUT_BUF_SIZE then Overflow else Printed(UpToNul(f), |f|)
  {
    PercentsRightIff(s);
    PrintIsFormat(s, args);
  }

  /** 5%% prints no percent sign. */
  lemma PercentPrintsNothing()
    ensures StdMatches("5%%", false, []) && StdFormat("5%%", false, []) == "5%"
    ensures Matches("5%%", false, []) && Printable("5%%", []) && Print("5%%", []) == Printed("5", 1)
  {
    assert "5%%"[1..] == "%%" && "%%"[1..] == "%" && "%"[1..] == "";
    assert Format("%%", false, []) == Format("%", true, []) == Format("", true, []) == "";
    assert StdFormat("%%", false, []) == StdFormat("%", true, []) == "%" + StdFormat("", false, []);
    PrintIsWholeText("5%%", []);
  }

  /** Behind %% the conversion is still open: the d of this format prints an argument. */
  lemma PercentTakesArgument(a: Arg)
    requires Suits('d', a)
    ensures StdMatches("%% d", false, []) && StdFormat("%% d", false, []) == "% d"
    ensures !Matches("%% d", false, [])
    ensures Matches("%% d", false, [a]) && Format("%% d", false, [a]) == SignedDecimal(Signed(a.bits))
  {
    assert "%% d"[1..] == "% d" && "% d"[1..] == " d" && " d"[1..] == "d" && "d"[1..] == "" && [a][1..] == [];
    assert "%% d"[0] == '%' && "% d"[0] == '%' && " d"[0] == ' ' && "d"[0] == 'd';
    assert Matches("d", true, [a]) && Matches(" d", true, [a]) && Matches("% d", true, [a]);
    assert !Matches("d", true, []) && !Matches(" d", true, []) && !Matches("% d", true, []);
    assert StdMatches("d", false, []) && StdMatches(" d", false, []) && StdMatches("% d", true, []);
    assert StdFormat("% d", true, []) == "%" + StdFormat(" d", false, []);
    assert StdFormat(" d", false, []) == " " + StdFormat("d", false, []);
    assert StdFormat("d", false, []) == "d" + StdFormat("", false, []);
    assert Format("d", true, [a]) == SignedDecimal(Signed(a.bits)) + Format("", false, []);
    assert Format("% d", true, [a]) == Format(" d", true, [a]) == Format("d", true, [a]);
  }

  lemma SmallDecimals()
    ensures SignedDecimal(65) == "65" && SignedDecimal(123) == "123"
  {
    assert Decimal(12) == "12";
  }
}
