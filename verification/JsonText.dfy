/**
 The JSON text of nested lists of strings and booleans, as the printer writes it with its default
 separators and with everything outside printable ASCII escaped (strings: section 7 of RFC 8259).

 A source string is a list of code points.  The printer escapes UTF-16 code units, so a code point
 beyond the first plane becomes two escapes.
 */
module JsonText {

  type CodePoint = c: int | 0 <= c < 0x11_0000
  type Unit = u: int | 0 <= u < 0x1_0000
  type Str = seq<CodePoint>

  datatype Value = Text(units: seq<Unit>) | Flag(on: bool) | List(items: seq<Value>)

  // ---------- Code points and code units ----------

  function UnitsOf(c: CodePoint): seq<Unit> {
    if c < 0x1_0000 then [c]
    else [0xD800 + (c - 0x1_0000) / 0x400, 0xDC00 + (c - 0x1_0000) % 0x400]
  }

  function Utf16(s: Str): seq<Unit> {
    if s == [] then [] else UnitsOf(s[0]) + Utf16(s[1..])
  }

  predicate High(u: int) { 0xD800 <= u < 0xDC00 }

  predicate Low(u: int) { 0xDC00 <= u < 0xE000 }

  /** No high surrogate stands right before a low one; in particular any text without surrogates. */
  predicate PairFree(s: Str) {
    |s| < 2 || (!(High(s[0]) && Low(s[1])) && PairFree(s[1..]))
  }

  /** The first two units form a surrogate pair exactly where the text starts beyond the first plane. */
  lemma {:induction false} FirstUnits(s: Str)
    requires s != [] && PairFree(s)
    ensures |Utf16(s)| >= |UnitsOf(s[0])| && 1 <= |UnitsOf(s[0])| <= 2
    ensures Utf16(s)[..|UnitsOf(s[0])|] == UnitsOf(s[0])
    ensures Utf16(s)[|UnitsOf(s[0])|..] == Utf16(s[1..])
    ensures |UnitsOf(s[0])| == 2 <==> |Utf16(s)| >= 2 && High(Utf16(s)[0]) && Low(Utf16(s)[1])
  {
    var first, rest := UnitsOf(s[0]), Utf16(s[1..]);
    assert Utf16(s) == first + rest;
    if |first| == 1 && |s| > 1 {
      assert rest == UnitsOf(s[1]) + Utf16(s[1..][1..]);
      assert Utf16(s)[1] == rest[0] == UnitsOf(s[1])[0];
    }
  }

  lemma {:induction false} UnitsDetermine(c: CodePoint, d: CodePoint)
    requires UnitsOf(c) == UnitsOf(d)
    ensures c == d
  {
    assert UnitsOf(c)[0] == UnitsOf(d)[0];
    if |UnitsOf(c)| == 2 {
      assert UnitsOf(c)[1] == UnitsOf(d)[1];
      var m, n := c - 0x1_0000, d - 0x1_0000;
      assert m == m / 0x400 * 0x400 + m % 0x400 && n == n / 0x400 * 0x400 + n % 0x400;
    }
  }

  lemma {:induction false} Utf16Injective(s: Str, t: Str)
    requires PairFree(s) && PairFree(t) && Utf16(s) == Utf16(t)
    ensures s == t
  {
    hide UnitsOf, High, Low;
    if s == [] {
    } else {
      FirstUnits(s);
    }
    if t == [] {
    } else {
      FirstUnits(t);
    }
    if s != [] && t != [] {
      UnitsDetermine(s[0], t[0]);
      Utf16Injective(s[1..], t[1..]);
      assert s == [s[0]] + s[1..] && t == [t[0]] + t[1..];
    }
  }

  /** The code point that a high and a low surrogate spell. */
  function Paired(high: CodePoint, low: CodePoint): CodePoint
    requires High(high) && Low(low)
  {
    0x1_0000 + (high - 0xD800) * 0x400 + (low - 0xDC00)
  }

  /** The text with each surrogate pair that is written out replaced by the code point it spells. */
  function Joined(s: Str): Str {
    if |s| < 2 then s
    else if High(s[0]) && Low(s[1]) then [Paired(s[0], s[1])] + Joined(s[2..])
    else [s[0]] + Joined(s[1..])
  }

  lemma {:induction false} PairedUnits(high: CodePoint, low: CodePoint)
    requires High(high) && Low(low)
    ensures UnitsOf(Paired(high, low)) == [high, low]
  {
    var m, n := high - 0xD800, low - 0xDC00;
    assert Paired(high, low) - 0x1_0000 == m * 0x400 + n;
    assert (m * 0x400 + n) / 0x400 == m && (m * 0x400 + n) % 0x400 == n;
  }

  lemma {:induction false} UnitsFirst(s: Str)
    requires s != []
    ensures Utf16(s) == UnitsOf(s[0]) + Utf16(s[1..])
    ensures High(s[0]) || Low(s[0]) ==> UnitsOf(s[0]) == [s[0]]
  {
  }

  lemma {:induction false} JoinedUnits(s: Str)
    ensures Utf16(Joined(s)) == Utf16(s)
  {
    if |s| < 2 {
    } else {
      hide Utf16, UnitsOf, Paired, High, Low;
      UnitsFirst(s);
      UnitsFirst(Joined(s));
      if High(s[0]) && Low(s[1]) {
        JoinedUnits(s[2..]);
        PairedUnits(s[0], s[1]);
        UnitsFirst(s[1..]);
        assert s[1..][1..] == s[2..];
        assert [s[0], s[1]] + Utf16(s[2..]) == [s[0]] + ([s[1]] + Utf16(s[2..]));
        assert Joined(s)[1..] == Joined(s[2..]);
      } else {
        JoinedUnits(s[1..]);
        assert Joined(s)[1..] == Joined(s[1..]);
      }
    }
  }

  lemma {:induction false} JoinedIsPairFree(s: Str)
    ensures PairFree(Joined(s))
    ensures s != [] ==> Joined(s) != [] && (Low(Joined(s)[0]) ==> s[0] == Joined(s)[0])
  {
    if |s| < 2 {
    } else if High(s[0]) && Low(s[1]) {
      JoinedIsPairFree(s[2..]);
      assert Joined(s)[1..] == Joined(s[2..]);
    } else {
      JoinedIsPairFree(s[1..]);
      assert Joined(s)[1..] == Joined(s[1..]);
      assert s[1..][0] == s[1];
    }
  }

  lemma {:induction false} PairFreeIsJoined(s: Str)
    requires PairFree(s)
    ensures Joined(s) == s
  {
    if |s| < 2 {
    } else {
      PairFreeIsJoined(s[1..]);
      assert s == [s[0]] + s[1..];
    }
  }

  /** Two strings print alike if and only if they are equal once written-out surrogate pairs are joined. */
  lemma {:induction false} SameUnitsIff(s: Str, t: Str)
    ensures Utf16(s) == Utf16(t) <==> Joined(s) == Joined(t)
  {
    JoinedUnits(s);
    JoinedUnits(t);
    JoinedIsPairFree(s);
    JoinedIsPairFree(t);
    if Utf16(s) == Utf16(t) {
      Utf16Injective(Joined(s), Joined(t));
    }
  }

  /** For every surrogate pair: written out it prints like the code point it spells. */
  lemma {:induction false} SurrogatePairCollides(high: CodePoint, low: CodePoint)
    requires High(high) && Low(low)
    ensures [high, low] != [Paired(high, low)] && Utf16([high, low]) == Utf16([Paired(high, low)])
  {
    assert Joined([high, low]) == [Paired(high, low)] + Joined([high, low][2..]);
    SameUnitsIff([high, low], [Paired(high, low)]);
  }

  // ---------- Printing ----------

  const HEX: string := "0123456789abcdef"

  function Hex4(u: Unit): (s: string)
    ensures |s| == 4
  {
    [HEX[u / 0x1000], HEX[u / 0x100 % 0x10], HEX[u / 0x10 % 0x10], HEX[u % 0x10]]
  }

  function Escape(u: Unit): string {
    if u == 0x22 then "\\\""
    else if u == 0x5C then "\\\\"
    else if 0x20 <= u <= 0x7E then [u as char]
    else if u == 0x08 then "\\b"
    else if u == 0x0C then "\\f"
    else if u == 0x0A then "\\n"
    else if u == 0x0D then "\\r"
    else if u == 0x09 then "\\t"
    else "\\u" + Hex4(u)
  }

  function PrintUnits(us: seq<Unit>): string {
    if us == [] then "\"" else Escape(us[0]) + PrintUnits(us[1..])
  }

  function PrintTail(items: seq<Value>): string
    decreases items, 1
  {
    if items == [] then "]" else ", " + Print(items[0]) + PrintTail(items[1..])
  }

  function PrintItems(items: seq<Value>): string
    decreases items, 2
  {
    if items == [] then "]" else Print(items[0]) + PrintTail(items[1..])
  }

  function Print(v: Value): string
    decreases v, 0
  {
    match v
    case Text(units) => "\"" + PrintUnits(units)
    case Flag(on) => if on then "true" else "false"
    case List(items) => "[" + PrintItems(items)
  }

  // ---------- The text determines the value ----------

  function HexValue(c: char): int {
    if '0' <= c <= '9' then c as int - '0' as int else c as int - 'a' as int + 10
  }

  /** The unit at the front of an escaped text, and how many characters spell it. */
  function ReadUnit(t: string): (int, nat) {
    if t == "" then (0, 0)
    else if t[0] != '\\' then (t[0] as int, 1)
    else if |t| < 2 then (0, 0)
    else if t[1] == 'b' then (0x08, 2)
    else if t[1] == 'f' then (0x0C, 2)
    else if t[1] == 'n' then (0x0A, 2)
    else if t[1] == 'r' then (0x0D, 2)
    else if t[1] == 't' then (0x09, 2)
    else if t[1] != 'u' then (t[1] as int, 2)
    else if |t| < 6 then (0, 0)
    else (HexValue(t[2]) * 0x1000 + HexValue(t[3]) * 0x100 + HexValue(t[4]) * 0x10 + HexValue(t[5]), 6)
  }

  lemma {:induction false} HexDigit(d: int)
    requires 0 <= d < 16
    ensures HexValue(HEX[d]) == d
  {
    if d < 8 {
      assert d == 0 || d == 1 || d == 2 || d == 3 || d == 4 || d == 5 || d == 6 || d == 7;
    } else {
      assert d == 8 || d == 9 || d == 10 || d == 11 || d == 12 || d == 13 || d == 14 || d == 15;
    }
  }

  lemma {:induction false} Hex4Digits(u: Unit)
    ensures u / 0x1000 * 0x1000 + u / 0x100 % 0x10 * 0x100 + u / 0x10 % 0x10 * 0x10 + u % 0x10 == u
  {
    var n: int := u;
    var l, m, h := n / 0x10, n / 0x100, n / 0x1000;
    assert n == l * 0x10 + n % 0x10;
    assert l == m * 0x10 + l % 0x10;
    assert m == h * 0x10 + m % 0x10;
  }

  lemma {:induction false} ReadHex(u: Unit, x: string)
    ensures ReadUnit("\\u" + Hex4(u) + x) == (u, 6)
  {
    var t := "\\u" + Hex4(u) + x;
    assert forall i | 0 <= i < 4 :: t[i + 2] == Hex4(u)[i];
    assert t[2] == HEX[u / 0x1000] && t[3] == HEX[u / 0x100 % 0x10];
    assert t[4] == HEX[u / 0x10 % 0x10] && t[5] == HEX[u % 0x10];
    HexDigit(u / 0x1000);
    HexDigit(u / 0x100 % 0x10);
    HexDigit(u / 0x10 % 0x10);
    HexDigit(u % 0x10);
    Hex4Digits(u);
  }

  lemma {:induction false} ReadEscape(u: Unit, x: string)
    ensures ReadUnit(Escape(u) + x) == (u, |Escape(u)|) && Escape(u)[0] != '"'
  {
    hide Hex4, HexValue;
    var t := Escape(u) + x;
    assert forall i | 0 <= i < |Escape(u)| :: t[i] == Escape(u)[i];
    if |Escape(u)| == 6 {
      ReadHex(u, x);
    }
  }

  lemma {:induction false} EscapeInjective(u: Unit, v: Unit, x: string, y: string)
    requires Escape(u) + x == Escape(v) + y
    ensures u == v && x == y
  {
    ReadEscape(u, x);
    ReadEscape(v, y);
    assert (Escape(u) + x)[|Escape(u)|..] == x && (Escape(v) + y)[|Escape(v)|..] == y;
  }

  /** How an escaped text starts and goes on, whatever follows. */
  lemma {:induction false} UnitsStart(us: seq<Unit>, x: string)
    ensures
      var t := PrintUnits(us) + x;
      && t != ""
      && (us == [] ==> t[0] == '"' && t[1..] == x)
      && (us != [] ==> t[0] != '"' && t == Escape(us[0]) + (PrintUnits(us[1..]) + x))
  {
    if us != [] {
      var rest := PrintUnits(us[1..]) + x;
      assert PrintUnits(us) + x == Escape(us[0]) + rest;
      ReadEscape(us[0], rest);
      assert (Escape(us[0]) + rest)[0] == Escape(us[0])[0];
    }
  }

  lemma PrintsSomething(v: Value)
    ensures Print(v) != ""
  {
  }

  /** The same for what follows the first item of a list. */
  lemma {:induction false} TailStart(items: seq<Value>, x: string)
    ensures
      var t := PrintTail(items) + x;
      && t != ""
      && (items == [] ==> t[0] == ']' && t[1..] == x)
      && (items != [] ==> |t| > 2 && t[0] == ',' && t[2..] == Print(items[0]) + (PrintTail(items[1..]) + x))
  {
    hide Print;
    if items == [] {
      assert PrintTail(items) == "]";
    } else {
      var first, rest := Print(items[0]), PrintTail(items[1..]);
      assert PrintTail(items) == ", " + first + rest;
      assert PrintTail(items) + x == ", " + (first + (rest + x));
      assert first + (rest + x) != "" by {
        PrintsSomething(items[0]);
      }
    }
  }

  lemma {:induction false} UnitsInjective(us: seq<Unit>, vs: seq<Unit>, x: string, y: string)
    requires PrintUnits(us) + x == PrintUnits(vs) + y
    ensures us == vs && x == y
  {
    UnitsStart(us, x);
    UnitsStart(vs, y);
    if us != [] && vs != [] {
      EscapeInjective(us[0], vs[0], PrintUnits(us[1..]) + x, PrintUnits(vs[1..]) + y);
      UnitsInjective(us[1..], vs[1..], x, y);
      assert us == [us[0]] + us[1..] && vs == [vs[0]] + vs[1..];
    }
  }

  lemma {:induction false} Associate(a: string, b: string, c: string)
    ensures (a + b) + c == a + (b + c)
  {
  }

  /** A printed value shows its kind in its first character; what remains is its content. */
  lemma {:induction false} ValueStart(v: Value, x: string)
    ensures
      var t := Print(v) + x;
      && t != ""
      && t[0] == (match v case Text(_) => '"' case Flag(on) => if on then 't' else 'f' case List(_) => '[')
      && (v.Text? ==> t[1..] == PrintUnits(v.units) + x)
      && (v.Flag? ==> t[if v.on then 4 else 5..] == x)
      && (v.List? ==> t[1..] == PrintItems(v.items) + x)
  {
    hide PrintUnits, PrintItems;
    match v
    case Text(units) => Associate("\"", PrintUnits(units), x);
    case Flag(_) =>
    case List(items) => Associate("[", PrintItems(items), x);
  }

  /** The first character tells an empty list from one with a first item. */
  lemma {:induction false} ItemsStart(items: seq<Value>, x: string)
    ensures
      var t := PrintItems(items) + x;
      && t != ""
      && (items == [] ==> t[0] == ']' && t[1..] == x)
      && (items != [] ==> t[0] != ']' && t == Print(items[0]) + (PrintTail(items[1..]) + x))
  {
    if items != [] {
      var tail := PrintTail(items[1..]);
      ValueStart(items[0], tail + x);
      Associate(Print(items[0]), tail, x);
    }
  }

  lemma {:induction false} TailInjective(a: seq<Value>, b: seq<Value>, x: string, y: string)
    requires PrintTail(a) + x == PrintTail(b) + y
    ensures a == b && x == y
    decreases a, 1
  {
    TailStart(a, x);
    TailStart(b, y);
    if a != [] && b != [] {
      PrintInjective(a[0], b[0], PrintTail(a[1..]) + x, PrintTail(b[1..]) + y);
      TailInjective(a[1..], b[1..], x, y);
      assert a == [a[0]] + a[1..] && b == [b[0]] + b[1..];
    }
  }

  lemma {:induction false} ItemsInjective(a: seq<Value>, b: seq<Value>, x: string, y: string)
    requires PrintItems(a) + x == PrintItems(b) + y
    ensures a == b && x == y
    decreases a, 2
  {
    ItemsStart(a, x);
    ItemsStart(b, y);
    if a != [] && b != [] {
      PrintInjective(a[0], b[0], PrintTail(a[1..]) + x, PrintTail(b[1..]) + y);
      TailInjective(a[1..], b[1..], x, y);
      assert a == [a[0]] + a[1..] && b == [b[0]] + b[1..];
    }
  }

  /** Whatever follows, a printed value can be read off the front of a text in one way only. */
  lemma {:induction false} PrintInjective(v: Value, w: Value, x: string, y: string)
    requires Print(v) + x == Print(w) + y
    ensures v == w && x == y
    decreases v, 0
  {
    ValueStart(v, x);
    ValueStart(w, y);
    match v {
      case Text(us) => UnitsInjective(us, w.units, x, y);
      case Flag(_) =>
      case List(items) => ItemsInjective(items, w.items, x, y);
    }
  }
}
