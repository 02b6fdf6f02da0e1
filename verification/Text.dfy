/** Byte strings as Go sees them. A `string` here is a sequence of bytes, one
    `char` per byte, so that indices and lengths are Go's. */
module Text {

  /** strings.LastIndexByte: the last place `c` stands in `s`, or -1. */
  function LastIndex(s: string, c: char): (i: int)
    ensures -1 <= i < |s|
    ensures i >= 0 ==> s[i] == c
    ensures forall j :: i < j < |s| ==> s[j] != c
  {
    if s == "" then -1
    else if s[|s| - 1] == c then |s| - 1
    else LastIndex(s[..|s| - 1], c)
  }

  /** What comes after the last slash. */
  function Leaf(path: string): string {
    path[LastIndex(path, '/') + 1..]
  }

  /** strings.IndexByte: the first place `c` stands in `s`, or -1. */
  function FirstIndex(s: string, c: char): (i: int)
    ensures -1 <= i < |s|
    ensures i >= 0 ==> s[i] == c && forall j :: 0 <= j < i ==> s[j] != c
    ensures i < 0 ==> c !in s
  {
    if s == "" then -1
    else if s[0] == c then 0
    else var i := FirstIndex(s[1..], c); if i < 0 then -1 else i + 1
  }

  /** The index LastIndex answers is the only one its contract allows. */
  lemma LastIndexIs(s: string, c: char, i: int)
    requires -1 <= i < |s| && (i >= 0 ==> s[i] == c)
    requires forall j :: i < j < |s| ==> s[j] != c
    ensures LastIndex(s, c) == i
  {
  }

  /** The last place in a joined string is in the second half if it can be. */
  lemma LastIndexJoined(a: string, b: string, c: char)
    ensures LastIndex(a + b, c) == if c in b then |a| + LastIndex(b, c) else LastIndex(a, c)
  {
    var s := a + b;
    if c in b {
      var i := LastIndex(b, c);
      assert s[|a| + i] == b[i];
      forall j | |a| + i < j < |s| ensures s[j] != c { assert s[j] == b[j - |a|]; }
      LastIndexIs(s, c, |a| + i);
    } else {
      var i := LastIndex(a, c);
      forall j | i < j < |s| ensures s[j] != c { assert j >= |a| ==> s[j] in b; }
      LastIndexIs(s, c, i);
    }
  }

  /** The same of FirstIndex. */
  lemma FirstIndexIs(s: string, c: char, i: nat)
    requires i < |s| && s[i] == c
    requires forall j :: 0 <= j < i ==> s[j] != c
    ensures FirstIndex(s, c) == i
  {
    var k := FirstIndex(s, c);
    assert c in s;
  }

  /** Go's `<` on strings: byte by byte, a prefix before what extends it. */
  predicate Less(a: string, b: string) {
    b != "" && (a == "" || a[0] < b[0] || (a[0] == b[0] && Less(a[1..], b[1..])))
  }

  lemma {:induction false} LessTotal(a: string, b: string)
    ensures Less(a, b) || a == b || Less(b, a)
    ensures !(Less(a, b) && (a == b || Less(b, a)))
  {
    if a != "" && b != "" && a[0] == b[0] {
      LessTotal(a[1..], b[1..]);
      assert a == [a[0]] + a[1..] && b == [b[0]] + b[1..];
    }
  }

  lemma {:induction false} LessTransitive(a: string, b: string, c: string)
    requires Less(a, b) && Less(b, c)
    ensures Less(a, c)
  {
    if a != "" && a[0] == b[0] && b[0] == c[0] {
      LessTransitive(a[1..], b[1..], c[1..]);
    }
  }

  lemma {:induction false} PrefixNotAfter(a: string, b: string)
    requires a <= b
    ensures !Less(b, a)
  {
    if a == "" {
    } else {
      PrefixNotAfter(a[1..], b[1..]);
    }
  }

  /** strconv.Itoa for a number that is not negative. */
  function Itoa(n: nat): (s: string)
    ensures s != ""
    ensures forall i :: 0 <= i < |s| ==> '0' <= s[i] <= '9'
  {
    if n < 10 then [Digit(n)] else Itoa(n / 10) + [Digit(n % 10)]
  }

  function Digit(d: nat): (c: char)
    requires d < 10
    ensures '0' <= c <= '9' && c as int - '0' as int == d
  {
    ('0' as int + d) as char
  }

  /** The number a run of decimal digits spells. */
  function DigitsValue(s: string): nat
    requires forall i :: 0 <= i < |s| ==> '0' <= s[i] <= '9'
  {
    if s == "" then 0
    else 10 * DigitsValue(s[..|s| - 1]) + (s[|s| - 1] as int - '0' as int)
  }

  lemma {:induction false} ItoaValue(n: nat)
    ensures DigitsValue(Itoa(n)) == n
  {
    if n >= 10 {
      ItoaValue(n / 10);
      var s := Itoa(n);
      assert s[..|s| - 1] == Itoa(n / 10);
    }
  }

  lemma ItoaInjective(m: nat, n: nat)
    requires Itoa(m) == Itoa(n)
    ensures m == n
  {
    ItoaValue(m);
    ItoaValue(n);
  }

  /** strings.Split on one byte: always at least one segment. */
  function Split(s: string, c: char): (segments: seq<string>)
    ensures segments != []
  {
    var i := FirstIndex(s, c);
    if i < 0 then [s] else [s[..i]] + Split(s[i + 1..], c)
  }

  lemma SplitAt(s: string, c: char, i: nat)
    requires i < |s| && s[i] == c && forall j :: 0 <= j < i ==> s[j] != c
    ensures Split(s, c) == [s[..i]] + Split(s[i + 1..], c)
  {
    FirstIndexIs(s, c, i);
  }

  lemma SplitNone(s: string, c: char)
    requires c !in s
    ensures Split(s, c) == [s]
  {
  }

  /** Splitting what was joined gives back both halves. */
  lemma {:induction false} SplitJoined(a: string, c: char, b: string)
    ensures Split(a + [c] + b, c) == Split(a, c) + Split(b, c)
  {
    hide Split;
    var s := a + [c] + b;
    var i := FirstIndex(a, c);
    if i < 0 {
      SplitAt(s, c, |a|);
      SplitNone(a, c);
      assert s[..|a|] == a && s[|a| + 1..] == b;
    } else {
      SplitAt(s, c, i);
      SplitAt(a, c, i);
      var rest := a[i + 1..];
      assert s[..i] == a[..i];
      assert s[i + 1..] == rest + [c] + b;
      SplitJoined(rest, c, b);
      assert [a[..i]] + (Split(rest, c) + Split(b, c)) == [a[..i]] + Split(rest, c) + Split(b, c);
    }
  }

  // ----- UTF-8, as unicode/utf8 reads it

  predicate Continues(b: char) { 0x80 <= b as int <= 0xBF }

  /** How many bytes the rune at the head of `s` takes, or 0 when no rune is there. */
  function RuneLen(s: string): (n: nat)
    ensures n <= 4 && n <= |s|
  {
    if s == "" then 0 else
    var b := s[0] as int;
    if b < 0x80 then 1
    else if 0xC2 <= b <= 0xDF then
      if |s| >= 2 && Continues(s[1]) then 2 else 0
    else if 0xE0 <= b <= 0xEF then
      if |s| >= 3 && Continues(s[1]) && Continues(s[2])
         && (b == 0xE0 ==> s[1] as int >= 0xA0) && (b == 0xED ==> s[1] as int <= 0x9F)
      then 3 else 0
    else if 0xF0 <= b <= 0xF4 then
      if |s| >= 4 && Continues(s[1]) && Continues(s[2]) && Continues(s[3])
         && (b == 0xF0 ==> s[1] as int >= 0x90) && (b == 0xF4 ==> s[1] as int <= 0x8F)
      then 4 else 0
    else 0
  }

  /** A code point of its own: not half of a pair, and not past the last. */
  predicate Scalar(cp: nat) { cp < 0xD800 || 0xE000 <= cp <= 0x10_FFFF }

  /** Section 3 of RFC 3629. */
  function EncodeRune(cp: nat): string
    requires Scalar(cp)
  {
    if cp < 0x80 then [cp as char]
    else if cp < 0x800 then [(0xC0 + cp / 0x40) as char, Tail(cp)]
    else if cp < 0x1_0000 then [(0xE0 + cp / 0x1000) as char, Tail(cp / 0x40), Tail(cp)]
    else [(0xF0 + cp / 0x4_0000) as char, Tail(cp / 0x1000), Tail(cp / 0x40), Tail(cp)]
  }

  function Tail(n: nat): char { (0x80 + n % 0x40) as char }

  /** A rune is at the head of bytes exactly when they begin with a code point's encoding,
      and it takes as many. */
  lemma RuneExactly(s: string)
    ensures RuneLen(s) > 0 <==> exists cp: nat :: Scalar(cp) && EncodeRune(cp) <= s
    ensures forall cp: nat :: Scalar(cp) && EncodeRune(cp) <= s ==> RuneLen(s) == |EncodeRune(cp)|
  {
    forall cp: nat | Scalar(cp) && EncodeRune(cp) <= s ensures RuneLen(s) == |EncodeRune(cp)| && RuneLen(s) > 0 {
      EncodedIsRune(cp, s);
    }
    if RuneLen(s) > 0 { var cp := RuneIsEncoded(s); }
  }

  lemma EncodedIsRune(cp: nat, s: string)
    requires Scalar(cp) && EncodeRune(cp) <= s
    ensures RuneLen(s) == |EncodeRune(cp)| > 0
  {
    var e := EncodeRune(cp);
    assert forall i :: 0 <= i < |e| ==> s[i] == e[i];
    if 0x80 <= cp < 0x800 {
      assert 2 <= cp / 0x40 <= 0x1F;
    } else if 0x800 <= cp < 0x1_0000 {
      ThreeBytes(cp);
    } else if 0x1_0000 <= cp {
      FourBytes(cp);
    }
  }

  lemma ThreeBytes(cp: nat)
    requires 0x800 <= cp < 0x1_0000 && Scalar(cp)
    ensures var a, b := cp / 0x1000, cp / 0x40 % 0x40;
            a <= 0xF && (a == 0 ==> b >= 0x20) && (a == 0xD ==> b < 0x20)
  {
    var h := cp / 0x40;
    assert h == cp / 0x1000 * 0x40 + h % 0x40;
  }

  lemma FourBytes(cp: nat)
    requires 0x1_0000 <= cp <= 0x10_FFFF
    ensures var a, b := cp / 0x4_0000, cp / 0x1000 % 0x40;
            a <= 4 && (a == 0 ==> b >= 0x10) && (a == 4 ==> b < 0x10)
  {
    var h := cp / 0x1000;
    assert h == cp / 0x4_0000 * 0x40 + h % 0x40;
  }

  lemma RuneIsEncoded(s: string) returns (cp: nat)
    requires RuneLen(s) > 0
    ensures Scalar(cp) && EncodeRune(cp) <= s
  {
    match RuneLen(s) {
      case 1 => cp := s[0] as int;
      case 2 => cp := TwoAre(s);
      case 3 => cp := ThreeAre(s);
      case _ => cp := FourAre(s);
    }
  }

  lemma TwoAre(s: string) returns (cp: nat)
    requires RuneLen(s) == 2
    ensures Scalar(cp) && EncodeRune(cp) <= s
  {
    cp := (s[0] as int - 0xC0) * 0x40 + (s[1] as int - 0x80);
  }

  lemma ThreeAre(s: string) returns (cp: nat)
    requires RuneLen(s) == 3
    ensures Scalar(cp) && EncodeRune(cp) <= s
  {
    var a, b, c := s[0] as int - 0xE0, s[1] as int - 0x80, s[2] as int - 0x80;
    cp := a * 0x1000 + b * 0x40 + c;
    Places3(a, b, c);
  }

  lemma FourAre(s: string) returns (cp: nat)
    requires RuneLen(s) == 4
    ensures Scalar(cp) && EncodeRune(cp) <= s
  {
    var a, b, c, d := s[0] as int - 0xF0, s[1] as int - 0x80, s[2] as int - 0x80, s[3] as int - 0x80;
    cp := a * 0x4_0000 + b * 0x1000 + c * 0x40 + d;
    Places4(a, b, c, d);
  }

  lemma Places3(a: nat, b: nat, c: nat)
    requires b < 0x40 && c < 0x40
    ensures var n := a * 0x1000 + b * 0x40 + c; n / 0x1000 == a && n / 0x40 % 0x40 == b && n % 0x40 == c
  {
    var n := a * 0x1000 + b * 0x40 + c;
    assert n / 0x40 == a * 0x40 + b;
  }

  lemma Places4(a: nat, b: nat, c: nat, d: nat)
    requires b < 0x40 && c < 0x40 && d < 0x40
    ensures var n := a * 0x4_0000 + b * 0x1000 + c * 0x40 + d;
            n / 0x4_0000 == a && n / 0x1000 % 0x40 == b && n / 0x40 % 0x40 == c && n % 0x40 == d
  {
    var n := a * 0x4_0000 + b * 0x1000 + c * 0x40 + d;
    assert n / 0x40 == a * 0x1000 + b * 0x40 + c;
    Places3(a, b, c);
    assert n / 0x1000 == a * 0x40 + b;
  }

  /** utf8.ValidString. */
  predicate ValidUtf8(s: string)
    decreases |s|
  {
    s == "" || (RuneLen(s) > 0 && ValidUtf8(s[RuneLen(s)..]))
  }

  lemma {:induction false} Utf8Joined(a: string, b: string)
    requires ValidUtf8(a) && ValidUtf8(b)
    ensures ValidUtf8(a + b)
    decreases |a|
  {
    if a == "" {
      assert a + b == b;
    } else {
      var n := RuneLen(a);
      assert RuneLen(a + b) == n;
      assert (a + b)[n..] == a[n..] + b;
      Utf8Joined(a[n..], b);
    }
  }

  /** Valid text cut before an ASCII byte is valid on both sides. */
  lemma {:induction false} Utf8Cut(a: string, b: string)
    requires ValidUtf8(a + b)
    requires b == "" || (b[0] as int) < 0x80
    ensures ValidUtf8(a) && ValidUtf8(b)
    decreases |a|
  {
    if a == "" {
      assert a + b == b;
    } else {
      var n := RuneLen(a + b);
      assert n <= |a| by {
        assert n > |a| ==> (a + b)[|a|] == b[0] && Continues(b[0]);
      }
      assert RuneLen(a) == n;
      assert (a + b)[n..] == a[n..] + b;
      Utf8Cut(a[n..], b);
    }
  }

  lemma {:induction false} AsciiIsUtf8(s: string)
    requires forall i :: 0 <= i < |s| ==> (s[i] as int) < 0x80
    ensures ValidUtf8(s)
  {
    if s == "" {
    } else {
      AsciiIsUtf8(s[1..]);
    }
  }

  // ----- Numbers read back

  const MAX_INT64 := 0x7FFF_FFFF_FFFF_FFFF
  const MIN_INT64 := -0x8000_0000_0000_0000

  datatype Option<+T> = None | Some(value: T)

  predicate AllDigits(s: string) {
    forall i :: 0 <= i < |s| ==> '0' <= s[i] <= '9'
  }

  /** strconv.ParseInt in base ten and 64 bits, which is also Atoi: an optional
      sign, at least one digit, and nothing that does not fit. */
  function ParseInt(s: string): (n: Option<int>)
    ensures n.Some? ==> MIN_INT64 <= n.value <= MAX_INT64
  {
    var signed := s != "" && (s[0] == '-' || s[0] == '+');
    var digits := if signed then s[1..] else s;
    if digits == "" || !AllDigits(digits) then None
    else
      var n: int := DigitsValue(digits);
      var v := if s[0] == '-' then -n else n;
      if MIN_INT64 <= v <= MAX_INT64 then Some(v) else None
  }

  /** What is read: digits, with a sign before them or none, whose number fits. */
  lemma ParseIntExactly(s: string, v: int)
    ensures ParseInt(s) == Some(v) <==>
            -0x8000_0000_0000_0000 <= v <= 0x7FFF_FFFF_FFFF_FFFF
            && exists digits :: digits != "" && AllDigits(digits)
                                && if s == "-" + digits then v + DigitsValue(digits) == 0
                                   else (s == digits || s == "+" + digits) && v == DigitsValue(digits)
  {
    hide DigitsValue;
    if s != "" {
      var tail := s[1..];
      assert s[0] == '-' ==> s == "-" + tail;
      assert s[0] == '+' ==> s == "+" + tail;
      forall digits | digits != "" && AllDigits(digits)
        ensures s == "-" + digits || s == "+" + digits ==> tail == digits
        ensures s == digits ==> '0' <= s[0] <= '9'
      {
      }
    }
  }

  /** A number that fits is read back as itself. */
  lemma ParseItoa(n: nat)
    requires n <= MAX_INT64
    ensures ParseInt(Itoa(n)) == Some(n)
  {
    ItoaValue(n);
  }

  /** strings.Cut on one byte: what comes before it and after it, if it is there. */
  datatype Cut = Cut(before: string, after: string, found: bool)

  function CutAt(s: string, c: char): Cut {
    var i := FirstIndex(s, c);
    if i < 0 then Cut(s, "", false) else Cut(s[..i], s[i + 1..], true)
  }

  lemma CutJoined(a: string, c: char, b: string)
    requires c !in a
    ensures CutAt(a + [c] + b, c) == Cut(a, b, true)
  {
    var s := a + [c] + b;
    FirstIndexIs(s, c, |a|);
    assert s[..|a|] == a && s[|a| + 1..] == b;
  }

  /** What was cut is both halves and what stood between. */
  lemma CutIs(s: string, c: char)
    ensures CutAt(s, c).found <==> c in s
    ensures CutAt(s, c).found ==> s == CutAt(s, c).before + [c] + CutAt(s, c).after && c !in CutAt(s, c).before
    ensures !CutAt(s, c).found ==> CutAt(s, c).before == s && CutAt(s, c).after == ""
  {
  }

  /** strings.CutPrefix. */
  function CutPrefix(s: string, prefix: string): Option<string> {
    if prefix <= s then Some(s[|prefix|..]) else None
  }

  function Count(s: string, c: char): nat {
    if s == "" then 0 else (if s[0] == c then 1 else 0) + Count(s[1..], c)
  }

  lemma {:induction false} CountJoined(a: string, b: string, c: char)
    ensures Count(a + b, c) == Count(a, c) + Count(b, c)
  {
    if a == "" {
      assert a + b == b;
    } else {
      assert (a + b)[1..] == a[1..] + b;
      CountJoined(a[1..], b, c);
    }
  }

  lemma {:induction false} CountNone(s: string, c: char)
    requires c !in s
    ensures Count(s, c) == 0
  {
    if s == "" {
    } else {
      CountNone(s[1..], c);
    }
  }
}
