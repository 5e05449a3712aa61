/** The leaves as Go's `encoding/json` writes them (strings, booleans and integers): they meet
    what `CanonicalJson` asks of an encoding. */
module JsonLeaves {
  import opened Components
  import opened CanonicalJson

  datatype Leaf = Bool(b: bool) | Int(n: int)

  function Hex(d: int): char
    requires 0 <= d < 16
  {
    "0123456789abcdef"[d]
  }

  lemma HexInjective(a: int, b: int)
    requires 0 <= a < 16 && 0 <= b < 16 && Hex(a) == Hex(b)
    ensures a == b
  {
    var digits := "0123456789abcdef";
    assert forall i, j :: 0 <= i < j < 16 ==> digits[i] != digits[j];
  }

  function Hex4(n: int): (r: string)
    requires 0 <= n < 0x10000
    ensures |r| == 4
  {
    var a := n / 16;
    var b := a / 16;
    [Hex(b / 16), Hex(b % 16), Hex(a % 16), Hex(n % 16)]
  }

  lemma Hex4Injective(m: int, n: int)
    requires 0 <= m < 0x10000 && 0 <= n < 0x10000 && Hex4(m) == Hex4(n)
    ensures m == n
  {
    var a, c := m / 16, n / 16;
    var b, d := a / 16, c / 16;
    HexInjective(b / 16, d / 16);
    HexInjective(b % 16, d % 16);
    HexInjective(a % 16, c % 16);
    HexInjective(m % 16, n % 16);
    SameQuotient(b, d);
    SameQuotient(a, c);
    SameQuotient(m, n);
  }

  lemma SameQuotient(m: int, n: int)
    requires m / 16 == n / 16 && m % 16 == n % 16
    ensures m == n
  {
  }

  /** The letter of a two-character escape, if the character has one. */
  function Short(c: char): Option<char> {
    match c
    case '\"' => Some('\"')
    case '\\' => Some('\\')
    case '\n' => Some('n')
    case '\r' => Some('r')
    case '\t' => Some('t')
    case _ =>
      if c as int == 8 then Some('b') else if c as int == 12 then Some('f') else None
  }

  /** Control characters, the line separators and the characters HTML cares about. */
  predicate Long(c: char) {
    c < ' ' || c == '<' || c == '>' || c == '&' || c as int == 0x2028 || c as int == 0x2029
  }

  function Escape(c: char): (r: string)
    ensures r != "" && r[0] != '\"'
  {
    if Short(c).Some? then ['\\', Short(c).value]
    else if Long(c) then ['\\', 'u'] + Hex4(c as int)
    else [c]
  }

  lemma ShortInjective(c: char, d: char)
    requires Short(c).Some? && Short(c) == Short(d)
    ensures c == d
  {
    assert c as int == d as int;
  }

  lemma SecondChar(c: char)
    ensures |Escape(c)| == 1 ==> Escape(c)[0] == c && c != '\\'
    ensures |Escape(c)| > 1 ==> Escape(c)[0] == '\\'
    ensures Short(c).Some? ==> |Escape(c)| == 2 && Escape(c)[1] == Short(c).value && Short(c).value != 'u'
    ensures Short(c).None? && Long(c) ==> |Escape(c)| == 6 && Escape(c)[1] == 'u' && Escape(c)[2..] == Hex4(c as int)
  {
  }

  /** No escape is the beginning of another. */
  lemma EscapeUnique(c: char, d: char, x: string, y: string)
    requires Escape(c) + x == Escape(d) + y
    ensures c == d && x == y
  {
    var s := Escape(c) + x;
    SecondChar(c);
    SecondChar(d);
    assert s[0] == Escape(c)[0] && s[0] == Escape(d)[0];
    assert |Escape(c)| > 1 <==> |Escape(d)| > 1;
    if |Escape(c)| > 1 {
      assert s[1] == Escape(c)[1] && s[1] == Escape(d)[1];
      assert Short(c).Some? <==> Short(d).Some?;
      if Short(c).Some? {
        ShortInjective(c, d);
      } else {
        assert s[2..6] == Hex4(c as int) && s[2..6] == Hex4(d as int);
        Hex4Injective(c as int, d as int);
      }
    }
    Cancel(Escape(c), x, y);
  }

  function EscapeAll(s: string): string {
    if s == "" then "" else Escape(s[0]) + EscapeAll(s[1..])
  }

  function Quote(s: string): string {
    "\"" + EscapeAll(s) + "\""
  }

  lemma {:induction false} EscapeAllUnique(s: string, t: string, x: string, y: string)
    requires EscapeAll(s) + ("\"" + x) == EscapeAll(t) + ("\"" + y)
    ensures s == t && x == y
  {
    QuoteFirst(s, x);
    QuoteFirst(t, y);
    if s == "" {
      assert EscapeAll(s) + ("\"" + x) == "\"" + x && EscapeAll(t) + ("\"" + y) == "\"" + y;
      Cancel("\"", x, y);
    } else {
      var a, b := EscapeAll(s[1..]) + ("\"" + x), EscapeAll(t[1..]) + ("\"" + y);
      Assoc(Escape(s[0]), EscapeAll(s[1..]), "\"" + x);
      Assoc(Escape(t[0]), EscapeAll(t[1..]), "\"" + y);
      EscapeUnique(s[0], t[0], a, b);
      EscapeAllUnique(s[1..], t[1..], x, y);
      assert s == [s[0]] + s[1..] && t == [t[0]] + t[1..];
    }
  }

  lemma QuoteFirst(s: string, x: string)
    ensures (EscapeAll(s) + ("\"" + x))[0] == '\"' <==> s == ""
  {
    if s != "" {
      assert (EscapeAll(s) + ("\"" + x))[0] == Escape(s[0])[0];
    }
  }

  lemma QuoteUnique(s: string, t: string, x: string, y: string)
    requires Quote(s) + x == Quote(t) + y
    ensures s == t
  {
    Assoc("\"" + EscapeAll(s), "\"", x);
    Assoc("\"" + EscapeAll(t), "\"", y);
    Opened("\"", EscapeAll(s), EscapeAll(t), "\"" + x, "\"" + y);
    EscapeAllUnique(s, t, x, y);
  }

  // ---------------------------------------------------------------- numbers and booleans

  function Digit(d: int): char
    requires 0 <= d < 10
  {
    "0123456789"[d]
  }

  function Itoa(n: nat): (r: string)
    ensures r != ""
  {
    if n < 10 then [Digit(n)] else Itoa(n / 10) + [Digit(n % 10)]
  }

  function FormatInt(n: int): string {
    if n < 0 then "-" + Itoa(-n) else Itoa(n)
  }

  function GoLeaf(leaf: Leaf): Option<string> {
    match leaf
    case Bool(b) => Some(if b then "true" else "false")
    case Int(n) => Some(FormatInt(n))
  }

  function GoEncoder(): Encoder<Leaf> {
    Encoder(Quote, GoLeaf)
  }

  /** The number the digits stand for. */
  function NumberOf(digits: string): nat {
    if digits == "" then 0
    else
      var last := digits[|digits| - 1];
      NumberOf(digits[..|digits| - 1]) * 10 + if '0' <= last <= '9' then last as int - 48 else 0
  }

  /** A number is written so that its decimal digits read back as it. */
  lemma {:induction false} ItoaReadsBack(n: nat)
    ensures NumberOf(Itoa(n)) == n
  {
    if n >= 10 {
      ItoaReadsBack(n / 10);
      LastDigitReads(Itoa(n / 10), n % 10);
    } else {
      LastDigitReads("", n);
      assert "" + [Digit(n)] == [Digit(n)];
    }
  }

  lemma LastDigitReads(digits: string, d: int)
    requires 0 <= d < 10
    ensures NumberOf(digits + [Digit(d)]) == NumberOf(digits) * 10 + d
  {
    DigitIs(d);
    assert (digits + [Digit(d)])[..|digits|] == digits;
  }

  function HexValue(c: char): int {
    if '0' <= c <= '9' then c as int - '0' as int else if 'a' <= c <= 'f' then c as int - 'a' as int + 10 else 0
  }

  lemma HexReadsBack(d: int)
    requires 0 <= d < 16
    ensures HexValue(Hex(d)) == d
  {
  }

  lemma Hex4ReadsBack(n: int)
    requires 0 <= n < 0x10000
    ensures var r := Hex4(n);
            ((HexValue(r[0]) * 16 + HexValue(r[1])) * 16 + HexValue(r[2])) * 16 + HexValue(r[3]) == n
  {
    var a := n / 16;
    var b := a / 16;
    HexReadsBack(b / 16);
    HexReadsBack(b % 16);
    HexReadsBack(a % 16);
    HexReadsBack(n % 16);
  }

  /** Which characters `encoding/json` writes with a letter behind a backslash. */
  lemma ShortEscapes(c: char)
    ensures c == '\"' || c == '\\' ==> Escape(c) == ['\\', c]
    ensures c == '\n' ==> Escape(c) == "\\n"
    ensures c == '\r' ==> Escape(c) == "\\r"
    ensures c == '\t' ==> Escape(c) == "\\t"
    ensures c as int == 8 ==> Escape(c) == "\\b"
    ensures c as int == 12 ==> Escape(c) == "\\f"
    ensures c !in "\"\\\n\r\t" && c as int != 8 && c as int != 12 ==> Short(c).None?
  {
  }

  /** Other control characters, the markup characters and the two line separators are written by
      their code point in hexadecimal, everything else as itself. */
  lemma LongEscapes(c: char)
    requires Short(c).None?
    ensures if c as int < 32 || c in "<>&" || c as int == 0x2028 || c as int == 0x2029
            then Escape(c) == "\\u" + Hex4(c as int) else Escape(c) == [c]
  {
  }

  predicate DigitOrMinus(c: char) {
    '0' <= c <= '9' || c == '-'
  }

  lemma DigitIs(d: int)
    requires 0 <= d < 10
    ensures Digit(d) as int == '0' as int + d
  {
  }

  lemma {:induction false} ItoaDigits(n: nat)
    ensures forall i :: 0 <= i < |Itoa(n)| ==> '0' <= Itoa(n)[i] <= '9'
    ensures |Itoa(n)| == 1 <==> n < 10
  {
    DigitIs(n % 10);
    if n >= 10 {
      ItoaDigits(n / 10);
    }
  }

  lemma {:induction false} ItoaInjective(m: nat, n: nat)
    requires Itoa(m) == Itoa(n)
    ensures m == n
  {
    ItoaDigits(m);
    ItoaDigits(n);
    DigitIs(m % 10);
    DigitIs(n % 10);
    var r := Itoa(m);
    assert r[|r| - 1] == Digit(m % 10) && r[|r| - 1] == Digit(n % 10);
    if m >= 10 {
      assert r[..|r| - 1] == Itoa(m / 10) && r[..|r| - 1] == Itoa(n / 10);
      ItoaInjective(m / 10, n / 10);
    }
  }

  lemma FormatIntInjective(m: int, n: int)
    requires FormatInt(m) == FormatInt(n)
    ensures m == n
  {
    ItoaDigits(if m < 0 then -m else m);
    ItoaDigits(if n < 0 then -n else n);
    assert FormatInt(m)[0] == '-' <==> m < 0;
    assert FormatInt(n)[0] == '-' <==> n < 0;
    if m < 0 {
      Cancel("-", Itoa(-m), Itoa(-n));
      ItoaInjective(-m, -n);
    } else {
      ItoaInjective(m, n);
    }
  }

  lemma FormatIntDigits(n: int)
    ensures FormatInt(n) != "" && forall i :: 0 <= i < |FormatInt(n)| ==> DigitOrMinus(FormatInt(n)[i])
  {
    ItoaDigits(if n < 0 then -n else n);
  }

  /** Leaves other than strings. */
  predicate IsToken(v: Value<Leaf>) {
    v.Null? || v.Other?
  }

  function Code(v: Value<Leaf>): string
    requires IsAtom(v)
  {
    AtomCode(GoEncoder(), v).value
  }

  predicate NoDelimiter(s: string) {
    forall i :: 0 <= i < |s| ==> !Delimiter(s[i])
  }

  lemma TokenChars(v: Value<Leaf>)
    requires IsToken(v)
    ensures Code(v) != "" && NoDelimiter(Code(v))
    ensures Code(v)[0] != '\"' && Code(v)[0] != '{' && Code(v)[0] != '['
    ensures v.Null? <==> Code(v)[0] == 'n'
    ensures v.Other? && v.leaf.Int? <==> DigitOrMinus(Code(v)[0])
    ensures v.Other? && v.leaf.Bool? ==> Code(v)[0] == if v.leaf.b then 't' else 'f'
  {
    if v.Other? && v.leaf.Int? {
      FormatIntDigits(v.leaf.n);
    }
  }

  lemma TokenInjective(v: Value<Leaf>, w: Value<Leaf>)
    requires IsToken(v) && IsToken(w) && Code(v) == Code(w)
    ensures v == w
  {
    TokenChars(v);
    TokenChars(w);
    if v.Other? && v.leaf.Int? {
      FormatIntInjective(v.leaf.n, w.leaf.n);
    }
  }

  /** Without delimiters inside, the text ends where the delimiter is. */
  lemma SameLength(a: string, b: string, x: string, y: string)
    requires NoDelimiter(a) && NoDelimiter(b) && Delimited(x) && Delimited(y) && a + x == b + y
    ensures a == b
  {
    var s := a + x;
    assert forall i :: 0 <= i < |a| ==> !Delimiter(s[i]) by {
      assert forall i :: 0 <= i < |a| ==> s[i] == a[i];
    }
    assert forall i :: 0 <= i < |b| ==> !Delimiter(s[i]) by {
      assert forall i :: 0 <= i < |b| ==> s[i] == b[i];
    }
    assert x != "" ==> s[|a|] == x[0];
    assert y != "" ==> s[|b|] == y[0];
    assert |a| == |b|;
    assert s[..|a|] == a && s[..|b|] == b;
  }

  lemma LeavesToldApart(v: Value<Leaf>, w: Value<Leaf>, x: string, y: string)
    requires IsAtom(v) && IsAtom(w) && Delimited(x) && Delimited(y) && Code(v) + x == Code(w) + y
    ensures v == w
  {
    FirstChar(v, x);
    FirstChar(w, y);
    if v.Text? {
      QuoteUnique(v.text, w.text, x, y);
    } else {
      TokenChars(v);
      TokenChars(w);
      SameLength(Code(v), Code(w), x, y);
      TokenInjective(v, w);
    }
  }

  lemma FirstChar(v: Value<Leaf>, x: string)
    requires IsAtom(v)
    ensures Code(v) + x != "" && ((Code(v) + x)[0] == '\"' <==> v.Text?)
  {
    if !v.Text? {
      TokenChars(v);
    }
    assert (Code(v) + x)[0] == Code(v)[0];
  }

  /** Go's encoding of strings, booleans and integers is unambiguous in the sense asked. */
  lemma GoEncodingIsGood()
    ensures GoodEncoding(GoEncoder())
  {
    var enc := GoEncoder();
    forall v: Value<Leaf>, w: Value<Leaf> | IsAtom(v) && IsAtom(w)
      ensures ToldApart(enc, v, w)
    {
      forall x, y | Delimited(x) && Delimited(y) && AtomCode(enc, v).value + x == AtomCode(enc, w).value + y
        ensures v == w
      {
        LeavesToldApart(v, w, x, y);
      }
    }
    forall v: Value<Leaf> | IsAtom(v)
      ensures PlainStart(AtomCode(enc, v).value)
    {
      if !v.Text? {
        TokenChars(v);
      }
    }
  }

  /** So on such trees the canonical text is injective without further hypotheses. */
  lemma GoCanonicalIff(v: Value<Leaf>, w: Value<Leaf>)
    ensures Canon(GoEncoder(), v).Some? && Canon(GoEncoder(), w).Some?
    ensures Canon(GoEncoder(), v) == Canon(GoEncoder(), w) <==> Normalize(v) == Normalize(w)
  {
    GoEncodingIsGood();
    Writable(v);
    Writable(w);
    CanonicalIff(GoEncoder(), v, w);
  }

  lemma {:induction false} Writable(v: Value<Leaf>)
    ensures Canon(GoEncoder(), v).Some?
    decreases Rank(v), v, 2, 0
  {
    if v.Dict? {
      FieldsWritable(v, Keys(v), 0);
    } else if IsList(v) {
      ItemsWritable(v, 0);
    }
  }

  lemma {:induction false} ItemsWritable(v: Value<Leaf>, i: nat)
    requires IsList(v) && i <= |Items(v)|
    ensures ItemsFrom(GoEncoder(), v, i).Some?
    decreases Rank(v), v, 1, |Items(v)| - i
  {
    if i < |Items(v)| {
      Writable(Items(v)[i]);
      ItemsWritable(v, i + 1);
    }
  }

  lemma {:induction false} FieldsWritable(v: Value<Leaf>, ks: seq<string>, i: nat)
    requires KeysOf(v, ks) && i <= |ks|
    ensures FieldsFrom(GoEncoder(), v, ks, i).Some?
    decreases Rank(v), v, 1, |ks| - i
  {
    if i < |ks| {
      assert ks[i] in ks;
      Writable(v.fields[ks[i]]);
      FieldsWritable(v, ks, i + 1);
    }
  }
}
