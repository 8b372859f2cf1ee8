/** What each conversion of printf prints, by reading the text back. */
module PrintedText {
  import opened Printf

  predicate IsDigit(c: char) { '0' <= c <= '9' }

  predicate IsHexDigit(c: char) { '0' <= c <= '9' || 'a' <= c <= 'f' }

  /** A decimal numeral without leading zeros */
  predicate IsNumeral(t: string) {
    t != [] && (forall i :: 0 <= i < |t| ==> IsDigit(t[i])) && (|t| > 1 ==> t[0] != '0')
  }

  predicate IsHexText(t: string) { forall i :: 0 <= i < |t| ==> IsHexDigit(t[i]) }

  lemma {:induction false} DecimalIsNumeral(u: nat)
    ensures IsNumeral(Decimal(u)) && (u > 0 ==> Decimal(u)[0] != '0')
  {
    if u < 10 {
    } else {
      DecimalIsNumeral(u / 10);
      var t, r := Decimal(u), Decimal(u / 10);
      assert t == r + [Digit(u % 10)];
      forall i | 0 <= i < |t| ensures IsDigit(t[i]) {
        if i < |r| { assert IsDigit(r[i]); }
      }
    }
  }

  lemma {:induction false} HexIsText(u: nat, k: nat)
    ensures IsHexText(Hex(u, k))
  {
    if k > 0 {
      HexIsText(u / 16, k - 1);
      var t, r := Hex(u, k), Hex(u / 16, k - 1);
      forall i | 0 <= i < |t| ensures IsHexDigit(t[i]) {
        if i < |r| { assert IsHexDigit(r[i]); }
      }
    }
  }

  /** The text of a format that is one conversion. */
  function Converted(c: char, a: Arg): string
    requires Matches(['%', c], false, [a])
  {
    Format(['%', c], false, [a])
  }

  /** Two characters, one argument: what the format stands for. */
  lemma OneConversion(c: char, a: Arg)
    requires if c == 'c' then a.Num? else Converts(c) && Suits(c, a)
    ensures Matches(['%', c], false, [a])
    ensures Converted(c, a) == if c == 'c' then [Char(a)] else Piece(c, a)
  {
    assert ['%', c][1..] == [c] && [c][1..] == [] && [a][1..] == [];
    hide Piece, Suits;
    assert Matches([c], true, [a]);
    assert Format([c], true, [a]) == (if c == 'c' then [Char(a)] else Piece(c, a)) + Format([], false, []);
  }

  /** %s prints the string. */
  lemma StringPrinted(s: string)
    requires IsString(s)
    ensures Matches("%s", false, [Str(s)]) && Format("%s", false, [Str(s)]) == s
  {
    OneConversion('s', Str(s));
  }

  /** %u prints the numeral of the unsigned word. */
  lemma UnsignedPrinted(w: Word)
    ensures Matches("%u", false, [Num(w)])
    ensures var t := Format("%u", false, [Num(w)]); IsNumeral(t) && Value(t, 10) == w
  {
    OneConversion('u', Num(w));
    DecimalIsNumeral(w);
    DecimalReads(w);
  }

  /** %d prints the numeral of the signed word, with a minus sign exactly in front of a negative one. */
  lemma SignedPrinted(w: Word)
    requires w != 0x8000_0000
    ensures Matches("%d", false, [Num(w)])
    ensures var t := Format("%d", false, [Num(w)]);
      if w < 0x8000_0000 then IsNumeral(t) && Value(t, 10) == w
      else t != [] && t[0] == '-' && IsNumeral(t[1..]) && Value(t[1..], 10) == 0x1_0000_0000 - w
  {
    OneConversion('d', Num(w));
    var n := Signed(w);
    var u := if n < 0 then -n else n;
    DecimalIsNumeral(u);
    DecimalReads(u);
    assert n < 0 ==> SignedDecimal(n)[1..] == Decimal(u);
  }

  /** %x prints eight hexadecimal digits that read as the word, %p the same behind 0x. */
  lemma HexPrinted(w: Word)
    ensures Matches("%x", false, [Num(w)]) && Matches("%p", false, [Num(w)])
    ensures var t := Format("%x", false, [Num(w)]);
      && |t| == 8 && IsHexText(t) && Value(t, 16) == w
      && Format("%p", false, [Num(w)]) == "0x" + t
  {
    OneConversion('x', Num(w));
    OneConversion('p', Num(w));
    HexIsText(w, 8);
    HexWordReads(w);
  }

  /** %c prints the character of the lowest byte. */
  lemma CharPrinted(w: Word)
    ensures Matches("%c", false, [Num(w)]) && Format("%c", false, [Num(w)]) == [(w % 256) as char]
  {
    OneConversion('c', Num(w));
  }

  /** Any format is printed piece by piece: a character outside a conversion stands for itself ... */
  lemma LiteralPrinted(c: char, rest: string, args: seq<Arg>)
    requires c != NUL && c != '%' && Matches(rest, false, args)
    ensures Matches([c] + rest, false, args) && Format([c] + rest, false, args) == [c] + Format(rest, false, args)
  {
    assert ([c] + rest)[1..] == rest;
  }

  /** ... a conversion for its own text with its own argument ... */
  lemma ConversionPrinted(c: char, a: Arg, rest: string, args: seq<Arg>)
    requires if c == 'c' then a.Num? else Converts(c) && Suits(c, a)
    requires Matches(rest, false, args)
    ensures Matches(['%', c], false, [a]) && Matches(['%', c] + rest, false, [a] + args)
    ensures Format(['%', c] + rest, false, [a] + args) == Format(['%', c], false, [a]) + Format(rest, false, args)
  {
    OneConversion(c, a);
    var s := [c] + rest;
    assert (['%', c] + rest)[1..] == s && s[1..] == rest && ([a] + args)[1..] == args;
    hide Piece, Suits;
    assert Matches(s, true, [a] + args);
    assert Format(s, true, [a] + args) == (if c == 'c' then [Char(a)] else Piece(c, a)) + Format(rest, false, args);
  }

  /** ... and a character that is no conversion is skipped behind the %. */
  lemma OthersSkipped(c: char, rest: string, args: seq<Arg>)
    requires c != NUL && !Converts(c) && c != 'c' && Matches(['%'] + rest, false, args)
    ensures Matches(['%', c] + rest, false, args)
    ensures Format(['%', c] + rest, false, args) == Format(['%'] + rest, false, args)
  {
    var s := [c] + rest;
    assert (['%'] + rest)[1..] == rest && (['%', c] + rest)[1..] == s && s[1..] == rest;
    hide Piece, Suits;
    assert Matches(rest, true, args) && Matches(s, true, args);
  }
}
