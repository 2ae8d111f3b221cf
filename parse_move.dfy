/**
 * The text form of a Scopa move: `t<n>` drops hand card n on the table, and
 * `<n>;<i1>+...+<ik>` plays hand card n to capture the table cards at the
 * listed indices. Every number is an unsigned 32-bit decimal literal. A parse
 * returns the move and the text it did not consume.
 */
module ParseMove {

  import opened Wrappers

  /** `from` indexes the hand; `to` is None for a table drop, else the table indices named. */
  datatype ParsedMove = ParsedMove(from: nat, to: Option<seq<nat>>)

  const U32Max: nat := 0xFFFF_FFFF

  predicate IsDigit(c: char)
  {
    '0' <= c <= '9'
  }

  function DigitValue(c: char): nat
    requires IsDigit(c)
  {
    c as int - '0' as int
  }

  function DigitChar(d: nat): (c: char)
    requires d < 10
    ensures IsDigit(c) && DigitValue(c) == d
  {
    ('0' as int + d) as char
  }

  predicate AllDigits(s: string)
  {
    forall i :: 0 <= i < |s| ==> IsDigit(s[i])
  }

  /** The text does not go on with a digit. */
  predicate EndsNumber(s: string)
  {
    s == [] || !IsDigit(s[0])
  }

  /** The length of the run of decimal digits at the front of `s`. */
  function DigitRun(s: string): (k: nat)
    ensures k <= |s|
  {
    if s == [] || !IsDigit(s[0]) then 0 else 1 + DigitRun(s[1..])
  }

  /** The run is made of digits and is as long as it can be. */
  lemma {:induction false} DigitRunMaximal(s: string)
    ensures AllDigits(s[..DigitRun(s)]) && EndsNumber(s[DigitRun(s)..])
    ensures DigitRun(s) > 0 <==> s != [] && IsDigit(s[0])
    decreases |s|
  {
    if s != [] && IsDigit(s[0]) {
      DigitRunMaximal(s[1..]);
      assert s[..DigitRun(s)] == [s[0]] + s[1..][..DigitRun(s[1..])];
      assert s[DigitRun(s)..] == s[1..][DigitRun(s[1..])..];
    }
  }

  /** The number a string of decimal digits denotes, most significant digit first. */
  function DigitsValue(d: string): nat
    requires AllDigits(d)
  {
    if d == [] then 0 else 10 * DigitsValue(d[..|d| - 1]) + DigitValue(d[|d| - 1])
  }

  /**
   * An unsigned 32-bit decimal literal (nom's `character::complete::u32`):
   * every leading digit is consumed; there must be at least one, and a value
   * above 2^32 - 1 is an error. No sign, no check on leading zeros.
   */
  function ParseU32(s: string): (r: Option<(string, nat)>)
    ensures r.Some? ==> |r.value.0| < |s| && s[|s| - |r.value.0|..] == r.value.0
    ensures r.Some? ==> r.value.1 <= U32Max
  {
    var k := DigitRun(s);
    if k == 0 then None
    else
      DigitRunMaximal(s);
      var v := DigitsValue(s[..k]);
      if v > U32Max then None else Some((s[k..], v))
  }

  /** A literal starts with a digit and is read up to the first non-digit; it fails exactly when there is no digit or its value overflows. */
  lemma ParseU32Spec(s: string)
    ensures ParseU32(s).Some? ==> s != [] && IsDigit(s[0]) && EndsNumber(ParseU32(s).value.0)
    ensures AllDigits(s[..DigitRun(s)])
    ensures ParseU32(s).None? <==> DigitRun(s) == 0 || DigitsValue(s[..DigitRun(s)]) > U32Max
  {
    DigitRunMaximal(s);
  }

  /** `parse_left`: the hand index. */
  function ParseLeft(s: string): (r: Option<(string, nat)>)
    ensures r.Some? ==> |r.value.0| < |s| && EndsNumber(r.value.0) && r.value.1 <= U32Max
    ensures r.Some? ==>
      var lit := s[..|s| - |r.value.0|];
      AllDigits(lit) && DigitsValue(lit) == r.value.1
    ensures r.None? <==> DigitRun(s) == 0 || (AllDigits(s[..DigitRun(s)]) && DigitsValue(s[..DigitRun(s)]) > U32Max)
  {
    ParseU32Spec(s);
    ParseU32(s)
  }

  /** The `+<u32>` items after the first one; an item that does not parse ends the list before its `+`. */
  function MoreItems(s: string): (r: (string, seq<nat>))
    ensures |r.0| <= |s|
    ensures forall i :: 0 <= i < |r.1| ==> r.1[i] <= U32Max
    ensures r.1 == [] ==> r.0 == s
    decreases |s|
  {
    if s != [] && s[0] == '+' then
      match ParseU32(s[1..])
      case None => (s, [])
      case Some((rest, n)) =>
        var (rest2, ns) := MoreItems(rest);
        (rest2, [n] + ns)
    else
      (s, [])
  }

  /** `parse_right`: a possibly empty `+`-separated list of u32 literals; it never fails. */
  function ParseRight(s: string): (r: (string, seq<nat>))
    ensures |r.0| <= |s|
    ensures forall i :: 0 <= i < |r.1| ==> r.1[i] <= U32Max
    ensures r.1 == [] <==> r.0 == s
  {
    match ParseU32(s)
    case None => (s, [])
    case Some((rest, n)) =>
      var (rest2, ns) := MoreItems(rest);
      (rest2, [n] + ns)
  }

  /** `parse_table_drop_move`: `t` and a hand index. */
  function ParseTableDropMove(s: string): (r: Option<(string, ParsedMove)>)
    ensures r.Some? ==> s != [] && s[0] == 't' && r.value.1.to.None?
  {
    if s != [] && s[0] == 't' then
      match ParseLeft(s[1..])
      case None => None
      case Some((rest, n)) => Some((rest, ParsedMove(n, None)))
    else
      None
  }

  /** `parse_taking_move`: a hand index, `;`, and the table indices. */
  function ParseTakingMove(s: string): (r: Option<(string, ParsedMove)>)
    ensures r.Some? ==> s != [] && IsDigit(s[0]) && r.value.1.to.Some?
  {
    match ParseLeft(s)
    case None => None
    case Some((rest, n)) =>
      if rest != [] && rest[0] == ';' then
        var (rest2, ns) := ParseRight(rest[1..]);
        Some((rest2, ParsedMove(n, Some(ns))))
      else
        None
  }

  /** `r` is what is left of `s` after a prefix has been consumed. */
  predicate IsSuffix(r: string, s: string)
  {
    |r| <= |s| && s[|s| - |r|..] == r
  }

  /** The end of an end of `s` is an end of `s`. */
  lemma IsSuffixTransitive(r: string, t: string, s: string)
    requires IsSuffix(r, t) && IsSuffix(t, s)
    ensures IsSuffix(r, s)
  {
    assert s[|s| - |r|..] == s[|s| - |t|..][|t| - |r|..];
  }

  /** The remainder of a list is the unconsumed end of its input. */
  lemma {:induction false} MoreItemsSuffix(s: string)
    ensures IsSuffix(MoreItems(s).0, s)
    decreases |s|
  {
    if s != [] && s[0] == '+' {
      match ParseU32(s[1..])
      case None =>
      case Some((rest, n)) =>
        MoreItemsSuffix(rest);
        IsSuffixTransitive(rest, s[1..], s);
        IsSuffixTransitive(MoreItems(rest).0, rest, s);
    }
  }

  /** A parse hands back exactly the unconsumed end of its input. */
  lemma ParseMoveSuffix(s: string)
    ensures ParseMoveInternal(s).Some? ==> IsSuffix(ParseMoveInternal(s).value.0, s)
  {
    if s != [] && s[0] == 't' && ParseU32(s[1..]).Some? {
      IsSuffixTransitive(ParseU32(s[1..]).value.0, s[1..], s);
    } else if ParseTakingMove(s).Some? {
      var rest := ParseU32(s).value.0;
      var after := rest[1..];
      IsSuffixTransitive(after, rest, s);
      match ParseU32(after)
      case None =>
      case Some((r1, n)) =>
        MoreItemsSuffix(r1);
        IsSuffixTransitive(r1, after, s);
        IsSuffixTransitive(MoreItems(r1).0, r1, s);
    }
  }

  /** Every number of the move fits in 32 bits. */
  predicate Fits(m: ParsedMove)
  {
    m.from <= U32Max &&
    (m.to.Some? ==> forall i :: 0 <= i < |m.to.value| ==> m.to.value[i] <= U32Max)
  }

  /**
   * `parse_move_internal`: the table-drop form, else the capture form. A
   * success consumes at least one character, the move is a table drop exactly
   * when the input starts with `t`, and its numbers fit in 32 bits.
   */
  function ParseMoveInternal(s: string): (r: Option<(string, ParsedMove)>)
    ensures r.Some? ==> |r.value.0| < |s|
    ensures r.Some? ==> (r.value.1.to.None? <==> s[0] == 't')
    ensures r.Some? ==> Fits(r.value.1)
  {
    match ParseTableDropMove(s)
    case Some(x) => Some(x)
    case None => ParseTakingMove(s)
  }

  // ---------------------------------------------------------------------------
  // Printing moves, and parsing what was printed.

  /** `n` in decimal, without leading zeros. */
  function Decimal(n: nat): (s: string)
    ensures s != [] && AllDigits(s)
  {
    if n < 10 then [DigitChar(n)] else Decimal(n / 10) + [DigitChar(n % 10)]
  }

  /** The `+i` items of a capture list after the first. */
  function PlusJoin(ns: seq<nat>): string
  {
    if ns == [] then "" else "+" + Decimal(ns[0]) + PlusJoin(ns[1..])
  }

  /** A capture list: `i1+i2+...+ik`, or nothing. */
  function Join(ns: seq<nat>): string
  {
    if ns == [] then "" else Decimal(ns[0]) + PlusJoin(ns[1..])
  }

  /** The canonical text of a move. */
  function Format(m: ParsedMove): string
  {
    match m.to
    case None => "t" + Decimal(m.from)
    case Some(ns) => Decimal(m.from) + ";" + Join(ns)
  }

  lemma {:induction false} DecimalValue(n: nat)
    ensures DigitsValue(Decimal(n)) == n
    decreases n
  {
    if n >= 10 {
      DecimalValue(n / 10);
      var d := Decimal(n);
      assert d[..|d| - 1] == Decimal(n / 10);
    }
  }

  lemma {:induction false} DigitRunOfDigits(d: string, rest: string)
    requires AllDigits(d) && EndsNumber(rest)
    ensures DigitRun(d + rest) == |d|
    decreases |d|
  {
    if d != [] {
      assert (d + rest)[1..] == d[1..] + rest;
      DigitRunOfDigits(d[1..], rest);
    }
  }

  /** A literal of at most 2^32 - 1 parses back to its value, up to the next non-digit. */
  lemma ParseDecimal(n: nat, rest: string)
    requires n <= U32Max && EndsNumber(rest)
    ensures ParseU32(Decimal(n) + rest) == Some((rest, n))
  {
    var d := Decimal(n);
    DigitRunOfDigits(d, rest);
    assert (d + rest)[..|d|] == d;
    assert (d + rest)[|d|..] == rest;
    DecimalValue(n);
  }

  /** The text after a capture list: it cannot be read as a further `+<u32>` item. */
  predicate EndsList(s: string)
  {
    EndsNumber(s) && MoreItems(s) == (s, [])
  }

  lemma ConcatAssoc(a: string, b: string, c: string)
    ensures a + b + c == a + (b + c)
  {
  }

  /** What `MoreItems` does with a `+`: read one literal after it, then the rest of the list. */
  lemma MoreItemsAfterPlus(x: string)
    ensures MoreItems("+" + x) ==
      match ParseU32(x)
      case None => ("+" + x, [])
      case Some((t, n)) => (MoreItems(t).0, [n] + MoreItems(t).1)
  {
    assert ("+" + x)[1..] == x;
  }

  /** One `+<n>` item in front of text that starts with no digit. */
  lemma PlusItem(n: nat, tail: string)
    requires n <= U32Max && EndsNumber(tail)
    ensures MoreItems("+" + Decimal(n) + tail) == (MoreItems(tail).0, [n] + MoreItems(tail).1)
  {
    ParseDecimal(n, tail);
    ConcatAssoc("+", Decimal(n), tail);
    MoreItemsAfterPlus(Decimal(n) + tail);
  }

  lemma {:induction false} MoreItemsOfPlusJoin(ns: seq<nat>, rest: string)
    requires forall i :: 0 <= i < |ns| ==> ns[i] <= U32Max
    requires EndsList(rest)
    ensures EndsNumber(PlusJoin(ns) + rest)
    ensures MoreItems(PlusJoin(ns) + rest) == (rest, ns)
    decreases |ns|
  {
    if ns == [] {
      assert PlusJoin(ns) + rest == rest;
    } else {
      var tail := PlusJoin(ns[1..]) + rest;
      var s := PlusJoin(ns) + rest;
      assert s == "+" + Decimal(ns[0]) + tail by {
        ConcatAssoc("+" + Decimal(ns[0]), PlusJoin(ns[1..]), rest);
      }
      assert MoreItems(s) == (rest, [ns[0]] + ns[1..]) by {
        MoreItemsOfPlusJoin(ns[1..], rest);
        PlusItem(ns[0], tail);
      }
      assert [ns[0]] + ns[1..] == ns;
      assert EndsNumber(s) by {
        assert s[0] == '+';
      }
    }
  }

  lemma ParseRightOfJoin(ns: seq<nat>, rest: string)
    requires forall i :: 0 <= i < |ns| ==> ns[i] <= U32Max
    requires EndsList(rest)
    ensures ParseRight(Join(ns) + rest) == (rest, ns)
  {
    if ns == [] {
      assert Join(ns) + rest == rest;
      ParseU32Spec(rest);
    } else {
      var tail := PlusJoin(ns[1..]) + rest;
      var s := Join(ns) + rest;
      MoreItemsOfPlusJoin(ns[1..], rest);
      assert s == Decimal(ns[0]) + tail by {
        ConcatAssoc(Decimal(ns[0]), PlusJoin(ns[1..]), rest);
      }
      ParseDecimal(ns[0], tail);
      assert ParseU32(s) == Some((tail, ns[0]));
      assert MoreItems(tail) == (rest, ns[1..]);
      assert [ns[0]] + ns[1..] == ns;
    }
  }

  /**
   * Parsing inverts printing: the canonical text of a move whose numbers fit in
   * 32 bits, followed by any text that does not continue it, parses back to
   * the move with that text as the remainder.
   */
  lemma ParseFormat(m: ParsedMove, rest: string)
    requires Fits(m) && EndsList(rest)
    ensures ParseMoveInternal(Format(m) + rest) == Some((rest, m))
  {
    match m.to
    case None => ParseDropFormat(m.from, rest);
    case Some(ns) => ParseCaptureFormat(m.from, ns, rest);
  }

  lemma ParseDropFormat(n: nat, rest: string)
    requires n <= U32Max && EndsNumber(rest)
    ensures ParseMoveInternal("t" + Decimal(n) + rest) == Some((rest, ParsedMove(n, None)))
  {
    var s := "t" + Decimal(n) + rest;
    assert s[1..] == Decimal(n) + rest;
    ParseDecimal(n, rest);
  }

  lemma ParseCaptureFormat(n: nat, ns: seq<nat>, rest: string)
    requires n <= U32Max && (forall i :: 0 <= i < |ns| ==> ns[i] <= U32Max)
    requires EndsList(rest)
    ensures ParseMoveInternal(Decimal(n) + ";" + Join(ns) + rest) == Some((rest, ParsedMove(n, Some(ns))))
  {
    var after := Join(ns) + rest;
    var s := Decimal(n) + ";" + Join(ns) + rest;
    assert s == Decimal(n) + (";" + after) by {
      ConcatAssoc(Decimal(n), ";", Join(ns));
      ConcatAssoc(Decimal(n) + ";", Join(ns), rest);
      ConcatAssoc(Decimal(n), ";", after);
    }
    ParseDecimal(n, ";" + after);
    assert ParseLeft(s) == Some((";" + after, n));
    assert (";" + after)[1..] == after;
    ParseRightOfJoin(ns, rest);
    assert ParseTakingMove(s) == Some((rest, ParsedMove(n, Some(ns))));
    assert ParseTableDropMove(s) == None;
  }

  /** Text that starts with neither a digit nor `+`, or nothing at all, ends a list. */
  lemma PlainTextEndsList(s: string)
    requires s == [] || (!IsDigit(s[0]) && s[0] != '+')
    ensures EndsList(s)
  {
  }

  /** A `+` with no number after it ends a list and is left unconsumed. */
  lemma TrailingPlusEndsList(s: string)
    requires EndsNumber(s)
    ensures EndsList("+" + s)
  {
    assert ("+" + s)[1..] == s;
  }

  /** `n;` is a capture naming no table card. */
  lemma EmptyCaptureList(n: nat, rest: string)
    requires n <= U32Max && EndsList(rest)
    ensures ParseMoveInternal(Decimal(n) + ";" + rest) == Some((rest, ParsedMove(n, Some([]))))
  {
    ParseFormat(ParsedMove(n, Some([])), rest);
    assert Format(ParsedMove(n, Some([]))) + rest == Decimal(n) + ";" + rest;
  }

  /** A capture list followed by a lone `+`: the list is kept and the `+` is the remainder. */
  lemma TrailingPlusLeftOver(m: ParsedMove, rest: string)
    requires Fits(m) && m.to.Some? && EndsNumber(rest)
    ensures ParseMoveInternal(Format(m) + "+" + rest) == Some(("+" + rest, m))
  {
    TrailingPlusEndsList(rest);
    assert Format(m) + "+" + rest == Format(m) + ("+" + rest);
    ParseFormat(m, "+" + rest);
  }

  /** A number not followed by `;` (nor by more digits) is no move. */
  lemma MissingSemicolon(n: nat, rest: string)
    requires n <= U32Max && EndsNumber(rest) && (rest == [] || rest[0] != ';')
    ensures ParseMoveInternal(Decimal(n) + rest) == None
  {
    ParseDecimal(n, rest);
  }

  /** Text that starts with neither `t` nor a digit is no move. */
  lemma NeitherForm(s: string)
    requires s == [] || (s[0] != 't' && !IsDigit(s[0]))
    ensures ParseMoveInternal(s) == None
  {
  }

  /** The two forms never both match, so trying the table drop first decides nothing. */
  lemma FormsDisjoint(s: string)
    ensures ParseTableDropMove(s).None? || ParseTakingMove(s).None?
    ensures ParseMoveInternal(s) == (if s != [] && s[0] == 't' then ParseTableDropMove(s) else ParseTakingMove(s))
  {
  }

  /** `z` zero digits. */
  function Zeros(z: nat): string
  {
    if z == 0 then "" else "0" + Zeros(z - 1)
  }

  /** Leading zeros are accepted: any number of `0`s in front of a literal do not change its value. */
  lemma LeadingZeroAccepted(z: nat, n: nat, rest: string)
    requires n <= U32Max && EndsNumber(rest)
    ensures ParseU32(Zeros(z) + Decimal(n) + rest) == Some((rest, n))
  {
    var d := Zeros(z) + Decimal(n);
    ZerosPrefixValue(z, Decimal(n));
    DigitRunOfDigits(d, rest);
    DecimalValue(n);
    assert (d + rest)[..|d|] == d;
    assert (d + rest)[|d|..] == rest;
  }

  lemma {:induction false} ZerosPrefixValue(z: nat, d: string)
    requires AllDigits(d)
    ensures AllDigits(Zeros(z) + d) && DigitsValue(Zeros(z) + d) == DigitsValue(d)
    decreases z
  {
    if z > 0 {
      ZerosPrefixValue(z - 1, d);
      assert Zeros(z) + d == "0" + (Zeros(z - 1) + d);
      ZeroPrefixValue(Zeros(z - 1) + d);
    } else {
      assert Zeros(z) + d == d;
    }
  }

  lemma {:induction false} ZeroPrefixValue(d: string)
    requires AllDigits(d)
    ensures AllDigits("0" + d) && DigitsValue("0" + d) == DigitsValue(d)
    decreases |d|
  {
    if d != [] {
      var z := "0" + d;
      assert z[..|z| - 1] == "0" + d[..|d| - 1];
      ZeroPrefixValue(d[..|d| - 1]);
    }
  }

  /** A hand index above 2^32 - 1 makes either form fail. */
  lemma LeftOverflowFails(n: nat, rest: string)
    requires n > U32Max && EndsNumber(rest)
    ensures ParseMoveInternal(Decimal(n) + rest) == None
    ensures ParseMoveInternal("t" + Decimal(n) + rest) == None
  {
    var d := Decimal(n);
    DigitRunOfDigits(d, rest);
    assert (d + rest)[..|d|] == d;
    DecimalValue(n);
    assert ("t" + d + rest)[1..] == d + rest;
  }

  /** A table index above 2^32 - 1 does not fail the move: it ends the list and is left over. */
  lemma RightOverflowLeftOver(n: nat, i: nat)
    requires n <= U32Max && i > U32Max
    ensures ParseMoveInternal(Decimal(n) + ";" + Decimal(i)) == Some((Decimal(i), ParsedMove(n, Some([]))))
  {
    var d := Decimal(i);
    var s := Decimal(n) + ";" + d;
    assert ParseRight(d) == (d, []) by {
      DigitRunOfDigits(d, "");
      assert d + "" == d;
      assert d[..|d|] == d;
      DecimalValue(i);
      assert ParseU32(d) == None;
    }
    assert ParseLeft(s) == Some((";" + d, n)) by {
      ParseDecimal(n, ";" + d);
      assert s == Decimal(n) + (";" + d);
    }
    assert (";" + d)[1..] == d;
    assert ParseTakingMove(s) == Some((d, ParsedMove(n, Some([]))));
    assert ParseTableDropMove(s) == None by {
      assert s[0] == Decimal(n)[0];
    }
  }

  /** A worked example: hand card 0 captures table cards 0 and 1. */
  lemma CaptureTwoExample()
    ensures ParseMoveInternal("0;0+1") == Some(("", ParsedMove(0, Some([0, 1]))))
  {
    var s := Decimal(0) + ";" + Join([0, 1]) + "";
    assert s == "0;0+1" by {
      assert Decimal(0) == "0" && Decimal(1) == "1";
      assert PlusJoin([1]) == "+1" by {
        assert [1][1..] == [];
      }
      assert Join([0, 1]) == "0+1" by {
        assert [0, 1][1..] == [1];
      }
    }
    assert ParseMoveInternal(s) == Some(("", ParsedMove(0, Some([0, 1])))) by {
      PlainTextEndsList("");
      ParseCaptureFormat(0, [0, 1], "");
    }
  }

  /** A worked example: hand card 0 captures table card 1. */
  lemma CaptureOneExample()
    ensures ParseMoveInternal("0;1") == Some(("", ParsedMove(0, Some([1]))))
  {
    var s := Decimal(0) + ";" + Join([1]) + "";
    assert s == "0;1" by {
      assert Decimal(0) == "0" && Decimal(1) == "1";
      assert Join([1]) == "1" by {
        assert [1][1..] == [];
      }
    }
    assert ParseMoveInternal(s) == Some(("", ParsedMove(0, Some([1])))) by {
      PlainTextEndsList("");
      ParseCaptureFormat(0, [1], "");
    }
  }

  /** The worked examples of a table drop and of text that is no move. */
  lemma OtherExamples()
    ensures ParseMoveInternal("t2") == Some(("", ParsedMove(2, None)))
    ensures ParseMoveInternal("x;1+2") == None
  {
    PlainTextEndsList("");
    ParseFormat(ParsedMove(2, None), "");
    assert Format(ParsedMove(2, None)) + "" == "t2";
    NeitherForm("x;1+2");
  }
}
