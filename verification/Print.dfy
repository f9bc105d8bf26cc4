/** The boot loader's `print` (boot/x86/print.c). Characters go to a sequence in place of
    the `outb` pointer. */
module Print {
  import opened Options
  import opened Bits

  // ----- Numbers as digits

  /** The number that digits spell in a base, most significant first. */
  function FromDigits(base: nat, ds: seq<nat>): nat {
    if ds == [] then 0 else FromDigits(base, ds[..|ds| - 1]) * base + ds[|ds| - 1]
  }

  /** Decimal digits without leading zeros; none for zero. */
  function Digits(n: nat): seq<nat> {
    if n == 0 then [] else Digits(n / 10) + [n % 10]
  }

  /** Canonical decimal: digits without leading zeros, but "0" for zero. */
  function Decimal(n: int): string {
    if n < 0 then "-" + Chars(Digits(-n)) else if n == 0 then "0" else Chars(Digits(n))
  }

  const HEX_CHARS := "0123456789ABCDEF"

  function Chars(ds: seq<nat>): (s: string)
    ensures |s| == |ds|
  {
    seq(|ds|, i requires 0 <= i < |ds| => if ds[i] < 16 then HEX_CHARS[ds[i]] else '?')
  }

  /** The digit a character stands for. */
  function CharDigit(c: char): nat {
    if '0' <= c <= '9' then (c - '0') as nat else if 'A' <= c <= 'F' then (c - 'A') as nat + 10 else 0
  }

  function CharDigits(s: string): (ds: seq<nat>)
    ensures |ds| == |s|
  {
    seq(|s|, i requires 0 <= i < |s| => CharDigit(s[i]))
  }

  function Parse(base: nat, s: string): nat {
    FromDigits(base, CharDigits(s))
  }

  function ParseSigned(s: string): int {
    if s != "" && s[0] == '-' then 0 - Parse(10, s[1..]) else Parse(10, s)
  }

  /** Only digits of the base. */
  predicate DigitsOf(base: nat, s: string) {
    base <= 16 && forall i :: 0 <= i < |s| ==> s[i] in HEX_CHARS[..base]
  }

  lemma {:induction false} CharsRoundTrip(ds: seq<nat>)
    requires forall i :: 0 <= i < |ds| ==> ds[i] < 16
    ensures CharDigits(Chars(ds)) == ds
  {
    forall i | 0 <= i < |ds| ensures CharDigits(Chars(ds))[i] == ds[i] {
      HexDigit(ds[i]);
    }
  }

  lemma HexDigit(d: nat)
    requires d < 16
    ensures CharDigit(HEX_CHARS[d]) == d
  {
  }

  lemma {:induction false} DigitsRoundTrip(n: nat)
    ensures FromDigits(10, Digits(n)) == n
    ensures forall i :: 0 <= i < |Digits(n)| ==> Digits(n)[i] < 10
    ensures n > 0 ==> Digits(n)[0] != 0
  {
    if n > 0 {
      DigitsRoundTrip(n / 10);
      assert Digits(n)[..|Digits(n)| - 1] == Digits(n / 10);
    }
  }

  /** The canonical decimal of a number reads back as that number. */
  lemma DecimalRoundTrip(n: int)
    ensures ParseSigned(Decimal(n)) == n
  {
    if n == 0 {
      assert CharDigits("0") == [0];
      assert FromDigits(10, [0]) == 0;
    } else {
      var m := if n < 0 then -n else n;
      DigitsRoundTrip(m);
      CharsRoundTrip(Digits(m));
      if n < 0 { assert Decimal(n)[1..] == Chars(Digits(m)); }
    }
  }

  // ----- %d

  /** The digits of `n` appended to `acc` in reverse order, as a number. */
  function Reversed(n: nat, acc: nat): (r: nat)
    ensures r >= acc
  {
    if n == 0 then acc else Reversed(n / 10, acc * 10 + n % 10)
  }

  /** The `k` low digits of `v`, lowest first. */
  function LowDigits(v: nat, k: nat): seq<nat> {
    if k == 0 then [] else [v % 10] + LowDigits(v / 10, k - 1)
  }

  lemma LowDigitsPush(acc: nat, d: nat, k: nat)
    requires d < 10
    ensures LowDigits(acc * 10 + d, k + 1) == [d] + LowDigits(acc, k)
  {
    assert (acc * 10 + d) % 10 == d && (acc * 10 + d) / 10 == acc;
  }

  /** Reading the reversed number from its low end gives the digits in order; the recorded
      length brings back the trailing zeros that reversal drops. */
  lemma {:induction false} ReversedDigits(n: nat, acc: nat, k: nat)
    ensures LowDigits(Reversed(n, acc), |Digits(n)| + k) == Digits(n) + LowDigits(acc, k)
  {
    hide LowDigits;
    if n > 0 {
      var d := n % 10;
      LowDigitsPush(acc, d, k);
      ReversedDigits(n / 10, acc * 10 + d, k + 1);
      assert |Digits(n)| + k == |Digits(n / 10)| + (k + 1);
      assert Digits(n) + LowDigits(acc, k) == Digits(n / 10) + ([d] + LowDigits(acc, k));
    }
  }

  lemma {:induction false} ReversedBound(n: nat, acc: nat, p: nat, q: nat)
    requires n < Pow10(p) && acc < Pow10(q)
    ensures Reversed(n, acc) < Pow10(p + q)
  {
    if n == 0 {
      Pow10Monotone(q, p + q);
    } else {
      ReversedBound(n / 10, acc * 10 + n % 10, p - 1, q + 1);
    }
  }

  function Pow10(k: nat): (p: nat)
    ensures p > 0
  {
    if k == 0 then 1 else 10 * Pow10(k - 1)
  }

  lemma {:induction false} Pow10Monotone(i: nat, j: nat)
    requires i <= j
    ensures Pow10(i) <= Pow10(j)
  {
    if i < j { Pow10Monotone(i, j - 1); }
  }

  const INT_LIMIT: int := 0x8000_0000

  type Int32 = x: int | -INT_LIMIT <= x < INT_LIMIT

  /** `%d` stays inside 32-bit signed arithmetic. */
  predicate Printable(n: Int32) {
    n != -INT_LIMIT && Reversed(if n < 0 then -n else n, 0) < INT_LIMIT
  }

  /** Every number of at most nine digits is printable. */
  lemma NineDigitsPrintable(n: Int32)
    requires -1_000_000_000 < n < 1_000_000_000
    ensures Printable(n)
  {
    assert Pow10(9) == 1_000_000_000 && Pow10(0) == 1;
    ReversedBound(if n < 0 then -n else n, 0, 9, 0);
  }

  lemma Turn(q: nat, d: nat, acc: nat)
    requires d < 10 && 10 * q + d > 0
    ensures Reversed(10 * q + d, acc) == Reversed(q, acc * 10 + d)
  {
  }

  lemma FitsReversed()
    ensures Reversed(2147483641, 0) == 1463847412
  {
    hide Reversed;
    Turn(214748364, 1, 0);
    Turn(21474836, 4, 1);
    Turn(2147483, 6, 14);
    Turn(214748, 3, 146);
    Turn(21474, 8, 1463);
    Turn(2147, 4, 14638);
    Turn(214, 7, 146384);
    Turn(21, 4, 1463847);
    Turn(2, 1, 14638474);
    Turn(0, 2, 146384741);
    assert Reversed(0, 1463847412) == 1463847412 by { NothingLeft(1463847412); }
  }

  lemma OverflowsReversed()
    ensures Reversed(1999999999, 0) == 9999999991
  {
    hide Reversed;
    Turn(199999999, 9, 0);
    Turn(19999999, 9, 9);
    Turn(1999999, 9, 99);
    Turn(199999, 9, 999);
    Turn(19999, 9, 9999);
    Turn(1999, 9, 99999);
    Turn(199, 9, 999999);
    Turn(19, 9, 9999999);
    Turn(1, 9, 99999999);
    Turn(0, 1, 999999999);
    assert Reversed(0, 9999999991) == 9999999991 by { NothingLeft(9999999991); }
  }

  lemma NothingLeft(acc: nat)
    ensures Reversed(0, acc) == acc
  {
  }

  /** The three kinds of ten-digit input: one that is printed, one whose reversal does not
      fit, and the number that cannot be negated. */
  lemma TenDigitInputs()
    ensures Printable(2147483641) && !Printable(1999999999) && !Printable(-INT_LIMIT)
  {
    FitsReversed();
    OverflowsReversed();
  }

  /** Digits read from the other end. */
  function Backwards(ds: seq<nat>): seq<nat> {
    if ds == [] then [] else [ds[|ds| - 1]] + Backwards(ds[..|ds| - 1])
  }

  /** The number that the loop builds is the one the digits spell backwards. */
  lemma {:induction false} ReversedMeaning(m: nat)
    ensures Reversed(m, 0) == FromDigits(10, Backwards(Digits(m)))
  {
    ReversedFrom(m, []);
    assert [] + Backwards(Digits(m)) == Backwards(Digits(m));
  }

  lemma {:induction false} ReversedFrom(n: nat, ds: seq<nat>)
    ensures Reversed(n, FromDigits(10, ds)) == FromDigits(10, ds + Backwards(Digits(n)))
  {
    hide Digits, Backwards;
    BackwardsDigits(n);
    if n == 0 {
      assert ds + [] == ds;
    } else {
      var more := ds + [n % 10];
      assert more[..|more| - 1] == ds;
      ReversedFrom(n / 10, more);
      assert more + Backwards(Digits(n / 10)) == ds + ([n % 10] + Backwards(Digits(n / 10)));
    }
  }

  lemma BackwardsDigits(n: nat)
    ensures Backwards(Digits(n)) == if n == 0 then [] else [n % 10] + Backwards(Digits(n / 10))
  {
    if n > 0 { assert Digits(n)[..|Digits(n)| - 1] == Digits(n / 10); }
  }

  /** The first loop (boot/x86/print.c:57-62): the digits reversed into a number, and
      their count. `ok` is false when 32-bit arithmetic would overflow. */
  method ReverseDigits(m: nat) returns (ok: bool, reversedInt: nat, integerLen: nat)
    ensures ok <==> Reversed(m, 0) < INT_LIMIT
    ensures ok ==> reversedInt == Reversed(m, 0) && integerLen == |Digits(m)|
  {
    var signInteger := m;
    reversedInt, integerLen := 0, 0;
    while signInteger > 0
      invariant Reversed(signInteger, reversedInt) == Reversed(m, 0)
      invariant |Digits(m)| == |Digits(signInteger)| + integerLen
      invariant reversedInt < INT_LIMIT
      decreases signInteger
    {
      reversedInt := reversedInt * 10;
      reversedInt := reversedInt + signInteger % 10;
      signInteger := signInteger / 10;
      integerLen := integerLen + 1;
      if reversedInt >= INT_LIMIT { return false, reversedInt, integerLen; }
    }
    ok := true;
  }

  lemma NoChars()
    ensures Chars([]) == ""
  {
  }

  lemma CharsAppend(ds: seq<nat>, d: nat)
    requires d < 16
    ensures Chars(ds + [d]) == Chars(ds) + [HEX_CHARS[d]]
  {
  }

  /** One digit moves from those to come to those done. */
  lemma DigitDone(done: seq<nat>, v: nat, k: nat)
    ensures if k == 0 then done + LowDigits(v, k) == done
      else done + LowDigits(v, k) == done + [v % 10] + LowDigits(v / 10, k - 1)
  {
    if k > 0 { assert done + ([v % 10] + LowDigits(v / 10, k - 1)) == done + [v % 10] + LowDigits(v / 10, k - 1); }
  }

  /** The second loop (boot/x86/print.c:67-70). */
  method EmitDigits(reversed: nat, integerLen: nat) returns (out: string)
    ensures out == Chars(LowDigits(reversed, integerLen))
  {
    hide LowDigits, Chars;
    NoChars();
    out := "";
    var reversedInt, decPlace := reversed, integerLen - 1;
    ghost var done: seq<nat> := [];
    while decPlace >= 0
      invariant -1 <= decPlace < integerLen
      invariant LowDigits(reversed, integerLen) == done + LowDigits(reversedInt, decPlace + 1)
      invariant out == Chars(done)
    {
      DigitDone(done, reversedInt, decPlace + 1);
      CharsAppend(done, reversedInt % 10);
      out := out + [HEX_CHARS[reversedInt % 10]];
      done := done + [reversedInt % 10];
      reversedInt := reversedInt / 10;
      decPlace := decPlace - 1;
    }
    DigitDone(done, reversedInt, 0);
  }

  /** The `%d` case (boot/x86/print.c:44-71). Signed overflow, which C leaves undefined,
      is `None`; it happens for exactly the numbers that are not printable. */
  method PrintDecimal(n: Int32) returns (r: Option<string>)
    ensures Printable(n) ==> r == Some(Decimal(n))
    ensures !Printable(n) ==> r == None
  {
    var sign := "";
    var signInteger: int := n;
    if signInteger < 0 {
      sign := "-";
      signInteger := -signInteger;
      if signInteger >= INT_LIMIT { return None; }
    }
    var ok, reversedInt, integerLen := ReverseDigits(signInteger);
    if !ok { return None; }
    integerLen := if integerLen != 0 then integerLen else 1;
    var digits := EmitDigits(reversedInt, integerLen);
    ReadBack(signInteger);
    assert "" + digits == digits;
    assert signInteger == 0 ==> digits == Chars([0]);
    r := Some(sign + digits);
  }

  lemma ReadBack(m: nat)
    ensures var k := |Digits(m)|;
      && (k != 0 <==> m != 0)
      && LowDigits(Reversed(m, 0), if k != 0 then k else 1) == if m == 0 then [0] else Digits(m)
    ensures Chars([0]) == "0"
  {
    if m == 0 {
      assert LowDigits(0, 1) == [0] + LowDigits(0, 0);
    } else {
      ReversedDigits(m, 0, 0);
      assert Digits(m) + LowDigits(0, 0) == Digits(m);
    }
  }

  // ----- %x and %b

  /** The `k` low digits of `n`, most significant first. */
  function FixedDigits(base: nat, n: nat, k: nat): (ds: seq<nat>)
    requires base == 2 || base == 16
    ensures |ds| == k
  {
    if k == 0 then []
    else if base == 2 then FixedDigits(base, n / 2, k - 1) + [n % 2]
    else FixedDigits(base, n / 16, k - 1) + [n % 16]
  }

  /** Digits of a base are determined by their number and value. */
  lemma {:induction false} DigitsUnique(base: nat, ds: seq<nat>)
    requires (base == 2 || base == 16) && forall i :: 0 <= i < |ds| ==> ds[i] < base
    ensures FixedDigits(base, FromDigits(base, ds), |ds|) == ds
  {
    if ds != [] {
      var init := ds[..|ds| - 1];
      DigitsUnique(base, init);
      var v, d := FromDigits(base, init), ds[|ds| - 1];
      if base == 2 { assert (v * 2 + d) / 2 == v && (v * 2 + d) % 2 == d; }
      else { assert (v * 16 + d) / 16 == v && (v * 16 + d) % 16 == d; }
      assert ds == init + [ds[|ds| - 1]];
    }
  }

  /** One of the two place loops: from place `k - 1` down to zero. */
  method EmitPlaces(n: Word, bits: nat, k: nat) returns (out: string)
    requires (bits == 1 || bits == 4) && Shr(n, k * bits) == 0
    ensures Pow2(bits) == 2 || Pow2(bits) == 16
    ensures |out| == k && Parse(Pow2(bits), out) == n && DigitsOf(Pow2(bits), out)
    ensures out == Chars(FixedDigits(Pow2(bits), n, k))
  {
    assert Pow2(1) == 2 && Pow2(4) == 16;
    out := "";
    var place := k - 1;
    ghost var done: seq<nat> := [];
    while place >= 0
      invariant -1 <= place < k && |done| == k - 1 - place
      invariant out == Chars(done) && forall i :: 0 <= i < |done| ==> done[i] < Pow2(bits)
      invariant FromDigits(Pow2(bits), done) == Shr(n, (place + 1) * bits)
    {
      PlaceStep(n, bits, place);
      var d := Shr(n, place * bits) % Pow2(bits);
      out := out + [HEX_CHARS[d]];
      done := done + [d];
      assert done[..|done| - 1] + [d] == done;
      assert out == Chars(done);
      place := place - 1;
    }
    DigitsRead(Pow2(bits), done);
  }

  /** What characters written for digits say about the number. */
  lemma DigitsRead(base: nat, ds: seq<nat>)
    requires (base == 2 || base == 16) && forall i :: 0 <= i < |ds| ==> ds[i] < base
    ensures Parse(base, Chars(ds)) == FromDigits(base, ds) && DigitsOf(base, Chars(ds))
    ensures ds == FixedDigits(base, FromDigits(base, ds), |ds|)
  {
    CharsRoundTrip(ds);
    DigitsUnique(base, ds);
    var out := Chars(ds);
    forall i | 0 <= i < |out| ensures out[i] in HEX_CHARS[..base] {
      assert HEX_CHARS[..base][ds[i]] == out[i];
    }
  }

  lemma {:induction false} ShrAdd(a: nat, i: nat, j: nat)
    ensures Shr(a, i + j) == Shr(Shr(a, i), j)
  {
    if i > 0 { ShrAdd(a / 2, i - 1, j); }
  }

  /** Each emitted digit extends the value read so far by one place. */
  lemma PlaceStep(n: Word, bits: nat, place: nat)
    requires (bits == 1 || bits == 4) && Pow2(1) == 2 && Pow2(4) == 16
    ensures Shr(n, place * bits) == Shr(n, (place + 1) * bits) * Pow2(bits) + Shr(n, place * bits) % Pow2(bits)
  {
    hide Pow2, Shr;
    var x := Shr(n, place * bits);
    assert (place + 1) * bits == place * bits + bits;
    ShrAdd(n, place * bits, bits);
    if bits == 1 { ShrOne(x); } else { ShrFour(x); }
  }

  lemma ShrOne(a: nat)
    ensures Shr(a, 1) == a / 2
  {
  }

  lemma ShrFour(a: nat)
    ensures Shr(a, 4) == a / 16
  {
    assert Shr(a, 4) == Shr(a / 2, 3) && Shr(a / 2, 3) == Shr(a / 2 / 2, 2);
    ShrOne(a / 2 / 2 / 2);
  }

  function Hex(n: Word): string {
    Chars(FixedDigits(16, n, 8))
  }

  function Binary(n: Word): string {
    Chars(FixedDigits(2, n, 32))
  }

  /** The `%x` case (boot/x86/print.c:81-91): eight digits that read back as the value. */
  method PrintHex(n: Word) returns (out: string)
    ensures |out| == 8 && Parse(16, out) == n && DigitsOf(16, out) && out == Hex(n)
  {
    WordSize();
    ShrZero(n, 32);
    assert Pow2(4) == 16;
    out := EmitPlaces(n, 4, 8);
  }

  /** The `%b` case (boot/x86/print.c:92-102): thirty-two digits. */
  method PrintBinary(n: Word) returns (out: string)
    ensures |out| == 32 && Parse(2, out) == n && DigitsOf(2, out) && out == Binary(n)
  {
    WordSize();
    ShrZero(n, 32);
    assert Pow2(1) == 2;
    out := EmitPlaces(n, 1, 32);
  }

  // ----- The format loop

  /** The argument word as `int`. */
  function Signed(w: Word): Int32 {
    if w < INT_LIMIT then w else w - WORD
  }

  /** The directives that take an argument. `%s` is not part of this model. */
  predicate TakesArgument(c: char) {
    c in {'c', 'd', 'x', 'b'}
  }

  /** What a directive prints. */
  function Directive(c: char, w: Word): Option<string> {
    if c == 'c' then Some([(w % 256) as char])
    else if c == 'd' then if Printable(Signed(w)) then Some(Decimal(Signed(w))) else None
    else if c == 'x' then Some(Hex(w))
    else if c == 'b' then Some(Binary(w))
    else if c == '%' then Some("%")
    else if c == 's' then None
    else Some("")
  }

  function Cat(a: Option<string>, b: Option<string>): Option<string> {
    if a.Some? && b.Some? then Some(a.value + b.value) else None
  }

  /** The output for a format and its argument words; `None` when an argument is missing
      or a directive is undefined. `sub` says that a `%` has just been read. */
  function Render(format: string, args: seq<Word>, sub: bool): Option<string>
    decreases |format|
  {
    if format == "" then Some("")
    else
      var c := format[0];
      if !sub then
        if c == '%' then Render(format[1..], args, true) else Cat(Some([c]), Render(format[1..], args, false))
      else if TakesArgument(c) then
        if args == [] then None else Cat(Directive(c, args[0]), Render(format[1..], args[1..], false))
      else Cat(Directive(c, 0), Render(format[1..], args, false))
  }

  /** `print` (boot/x86/print.c:17-128). */
  method Print(format: string, args: seq<Word>) returns (r: Option<string>)
    ensures r == Render(format, args, false)
  {
    var substituting, offset, next := false, 0, 0;
    var out := "";
    assert format[0..] == format && args[0..] == args && forall s: string :: "" + s == s;
    while offset < |format|
      invariant offset <= |format| && next <= |args|
      invariant Cat(Some(out), Render(format[offset..], args[next..], substituting)) == Render(format, args, false)
    {
      var curChar := format[offset];
      assert format[offset..][1..] == format[offset + 1..];
      if substituting {
        var w: Word := 0;
        if TakesArgument(curChar) {
          if next >= |args| { return None; }
          w := args[next];
          assert args[next..][1..] == args[next + 1..];
          next := next + 1;
        }
        var piece := PrintDirective(curChar, w);
        if piece == None { return None; }
        CatAssoc(out, piece.value, Render(format[offset + 1..], args[next..], false));
        out := out + piece.value;
        substituting := false;
      } else if curChar == '%' {
        substituting := true;
      } else {
        CatAssoc(out, [curChar], Render(format[offset + 1..], args[next..], false));
        out := out + [curChar];
      }
      offset := offset + 1;
    }
    r := Some(out);
    assert out + "" == out;
  }

  method PrintDirective(c: char, w: Word) returns (r: Option<string>)
    ensures r == Directive(c, w)
  {
    match c {
      case 'c' => r := Some([(w % 256) as char]);
      case 'd' => r := PrintDecimal(Signed(w));
      case 'x' => var s := PrintHex(w); r := Some(s);
      case 'b' => var s := PrintBinary(w); r := Some(s);
      case '%' => r := Some("%");
      case 's' => r := None;
      case _ => r := Some("");
    }
  }

  lemma CatAssoc(a: string, b: string, c: Option<string>)
    ensures Cat(Some(a), Cat(Some(b), c)) == Cat(Some(a + b), c)
  {
    if c.Some? { assert a + (b + c.value) == a + b + c.value; }
  }

  /** Text without a `%` prints itself, whatever the arguments. */
  lemma {:induction false} PlainText(format: string, args: seq<Word>)
    requires '%' !in format
    ensures Render(format, args, false) == Some(format)
  {
    if format != "" {
      PlainText(format[1..], args);
      assert format == [format[0]] + format[1..];
    }
  }

  /** A directive alone prints its argument: decimal, hexadecimal and binary. */
  lemma OneDirective(w: Word)
    ensures Render("%d", [w], false) == if Printable(Signed(w)) then Some(Decimal(Signed(w))) else None
    ensures Render("%x", [w], false) == Some(Hex(w))
    ensures Render("%b", [w], false) == Some(Binary(w))
    ensures Render("%%", [], false) == Some("%")
  {
    DirectiveAlone('d', w);
    DirectiveAlone('x', w);
    DirectiveAlone('b', w);
    assert "%%"[1..] == "%" && "%"[1..] == "";
    assert Render("%", [], true) == Cat(Some("%"), Some(""));
    assert "%" + "" == "%";
  }

  /** A word is printed as the 32-bit number that it stands for; `%c` prints its low byte as
      a character; an unknown directive prints nothing and takes no argument; without an
      argument nothing is defined. */
  lemma DirectivesInNumbers(n: int, w: Word, c: char)
    requires -0x8000_0000 <= n < 0x8000_0000
    ensures Render("%d", [if n < 0 then n + 0x1_0000_0000 else n], false) ==
      if Printable(n) then Some(Decimal(n)) else None
    ensures Render("%c", [w], false) == Some([(w % 256) as char])
    ensures c !in {'c', 'd', 's', 'x', 'b', '%'} ==> Render(['%', c], [], false) == Some("")
    ensures Render("%d", [], false) == Render("%x", [], false) == Render("%b", [], false) == None
  {
    DirectiveAlone('d', if n < 0 then n + 0x1_0000_0000 else n);
    DirectiveAlone('c', w);
    assert ['%', c][1..] == [c] && [c][1..] == "" && "%d"[1..] == "d" && "%x"[1..] == "x" && "%b"[1..] == "b";
    assert "" + "" == "";
    assert c !in {'c', 'd', 's', 'x', 'b', '%'} ==> Render([c], [], true) == Cat(Some(""), Render("", [], false));
  }

  /** `%d` is defined up to the reversal's 32 bits. */
  lemma PrintableIs(n: Int32)
    ensures Printable(n) <==> n != -0x8000_0000 && Reversed(if n < 0 then -n else n, 0) < 0x8000_0000
  {
  }

  lemma DirectiveAlone(c: char, w: Word)
    requires TakesArgument(c)
    ensures Render(['%', c], [w], false) == Directive(c, w)
  {
    assert ['%', c][1..] == [c] && [c][1..] == "" && [w][1..] == [];
    assert Render([c], [w], true) == Cat(Directive(c, w), Render("", [], false));
    forall s: string ensures s + "" == s {}
  }

  /** Whether a `%` is pending after a format, and how many arguments it takes. */
  function Pending(format: string, sub: bool): bool {
    if format == "" then sub else Pending(format[1..], !sub && format[0] == '%')
  }

  function Arguments(format: string, sub: bool): nat {
    if format == "" then 0
    else (if sub && TakesArgument(format[0]) then 1 else 0) + Arguments(format[1..], !sub && format[0] == '%')
  }

  /** Formats compose: a format that leaves no `%` pending prints the same in front of any
      other, and the other one starts at the arguments it left. */
  lemma {:induction false} RenderAppend(f: string, g: string, a: seq<Word>, b: seq<Word>, sub: bool)
    requires !Pending(f, sub) && |a| == Arguments(f, sub)
    ensures Render(f + g, a + b, sub) == Cat(Render(f, a, sub), Render(g, b, false))
    decreases |f|
  {
    if f == "" {
      assert f + g == g && a + b == b;
      assert forall s: string :: "" + s == s;
    } else {
      var h, sub' := f[1..], !sub && f[0] == '%';
      assert (f + g)[1..] == h + g;
      var a' := if sub && TakesArgument(f[0]) then a[1..] else a;
      if sub && TakesArgument(f[0]) { assert (a + b)[1..] == a[1..] + b; }
      RenderAppend(h, g, a', b, sub');
      var rest, last := Render(h, a', sub'), Render(g, b, false);
      if rest.Some? && last.Some? {
        forall p: string ensures p + (rest.value + last.value) == p + rest.value + last.value {}
      }
    }
  }
}
