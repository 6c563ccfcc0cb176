/** File names: how flushes and compactions print them and what a reload parses out of them. */
module FileNames {
  import opened Entries

  const U64_MAX: nat := 0xFFFF_FFFF_FFFF_FFFF

  // ---------------------------------------------------------------- numbers as text

  function DigitChar(d: nat): char
    requires d < 16
  {
    "0123456789abcdef"[d]
  }

  function DigitValue(c: char, base: nat): Option<nat> {
    var d := if '0' <= c <= '9' then c as int - '0' as int
             else if 'a' <= c <= 'z' then c as int - 'a' as int + 10
             else if 'A' <= c <= 'Z' then c as int - 'A' as int + 10
             else base;
    if d < base then Some(d) else None
  }

  /** `{}` and `{:x}`: the digits without leading zeros. */
  function Digits(n: nat, base: nat): string
    requires 2 <= base <= 16
  {
    if n < base then [DigitChar(n)] else Digits(n / base, base) + [DigitChar(n % base)]
  }

  /** `{:016x}` pads on the left. */
  function ZeroPadded(s: string, width: nat): string
    decreases width - |s|
  {
    if |s| >= width then s else ZeroPadded("0" + s, width)
  }

  /** One more digit; `None` if there is none or the number leaves 64 bits. */
  function Push(high: Option<nat>, low: Option<nat>, base: nat): Option<nat> {
    if high.None? || low.None? || high.value * base + low.value > U64_MAX then None
    else Some(high.value * base + low.value)
  }

  /** Digits to a 64-bit number; `None` on a foreign character or an overflow. */
  function Number(s: string, base: nat): Option<nat> {
    if s == "" then Some(0) else Push(Number(s[..|s| - 1], base), DigitValue(s[|s| - 1], base), base)
  }

  function ParseUnsigned(s: string, base: nat): Option<nat> {
    if s == "" || s == "+" || s == "-" then None
    else Number(if s[0] == '+' then s[1..] else s, base)
  }

  lemma DigitReadsBack(d: nat, base: nat)
    requires d < base <= 16
    ensures DigitValue(DigitChar(d), base) == Some(d)
    ensures DigitChar(d) != '_' && DigitChar(d) != '+' && DigitChar(d) != '-'
  {
  }

  lemma NumberOfMore(s: string, c: char, base: nat)
    ensures Number(s + [c], base) == Push(Number(s, base), DigitValue(c, base), base)
  {
    assert (s + [c])[..|s|] == s;
    hide DigitValue;
  }

  lemma {:induction false} DigitsReadBack(n: nat, base: nat)
    requires 2 <= base <= 16 && n <= U64_MAX
    ensures Number(Digits(n, base), base) == Some(n)
  {
    hide Number, DigitValue, DigitChar, Push;
    DigitReadsBack(n % base, base);
    PushDigit(n, base);
    QuotientShrinks(n, base);
    if n < base {
      NumberOfMore("", DigitChar(n), base);
      NumberOfNone(base);
      assert "" + [DigitChar(n)] == [DigitChar(n)];
    } else {
      DigitsReadBack(n / base, base);
      NumberOfMore(Digits(n / base, base), DigitChar(n % base), base);
    }
  }

  lemma NumberOfNone(base: nat)
    ensures Number("", base) == Some(0)
  {
  }

  lemma PushDigit(n: nat, base: nat)
    requires 2 <= base && n <= U64_MAX
    ensures Push(Some(n / base), Some(n % base), base) == Some(n)
  {
    assert n / base * base + n % base == n;
  }

  lemma {:induction false} TimesGrows(q: nat, base: nat)
    requires 2 <= base
    ensures q * base >= q * 2
    ensures q > 0 ==> q * base >= base
  {
    if q > 0 {
      TimesGrows(q - 1, base);
      assert q * base == (q - 1) * base + base;
    }
  }

  lemma QuotientShrinks(n: nat, base: nat)
    requires 2 <= base
    ensures n < base ==> n / base == 0 && n % base == n
    ensures n >= base ==> n / base < n
  {
    var q, r := n / base, n % base;
    assert n == q * base + r;
    TimesGrows(q, base);
  }

  /** Text of digits only: non-empty, no sign, no separator. */
  ghost predicate Plain(s: string) {
    s != "" && s[0] != '+' && s[0] != '-' && '_' !in s
  }

  lemma {:induction false} DigitsArePlain(n: nat, base: nat)
    requires 2 <= base <= 16
    ensures Plain(Digits(n, base))
  {
    DigitReadsBack(n % base, base);
    QuotientShrinks(n, base);
    hide DigitChar, DigitValue;
    if n >= base {
      DigitsArePlain(n / base, base);
    }
  }

  lemma {:induction false} LeadingZero(s: string, base: nat)
    requires base >= 2
    ensures Number("0" + s, base) == Number(s, base)
  {
    if s == "" {
      assert "0"[..0] == "";
    } else {
      LeadingZero(s[..|s| - 1], base);
      assert ("0" + s)[..|s|] == "0" + s[..|s| - 1];
    }
  }

  lemma {:induction false} PaddingReadsBack(s: string, width: nat, base: nat)
    requires base >= 2 && Plain(s)
    ensures Number(ZeroPadded(s, width), base) == Number(s, base)
    ensures Plain(ZeroPadded(s, width))
    decreases width - |s|
  {
    if |s| < width {
      LeadingZero(s, base);
      PaddingReadsBack("0" + s, width, base);
    }
  }

  // ---------------------------------------------------------------- text

  predicate StartsWith(s: string, prefix: string) {
    prefix <= s
  }

  predicate EndsWith(s: string, suffix: string) {
    |suffix| <= |s| && s[|s| - |suffix|..] == suffix
  }

  /** The two parts around the first underscore. */
  function SplitOnce(s: string): Option<(string, string)> {
    if s == "" then None
    else if s[0] == '_' then Some(("", s[1..]))
    else match SplitOnce(s[1..])
      case Some((a, b)) => Some(([s[0]] + a, b))
      case None => None
  }

  /** The part before the first underscore, or everything. */
  function FirstPart(s: string): string {
    match SplitOnce(s)
    case Some((a, _)) => a
    case None => s
  }

  lemma {:induction false} SplitsAtFirst(a: string, b: string)
    requires '_' !in a
    ensures SplitOnce(a + "_" + b) == Some((a, b))
  {
    var s := a + "_" + b;
    if a == "" {
      assert s[1..] == b;
    } else {
      assert s[1..] == a[1..] + "_" + b;
      assert s[0] == a[0] && a == [a[0]] + a[1..];
      SplitsAtFirst(a[1..], b);
    }
  }

  // ---------------------------------------------------------------- names

  function FlushName(seqno: nat): string {
    "L0_" + ZeroPadded(Digits(seqno, 16), 16) + ".sst"
  }

  function CompactName(level: nat, secs: nat, uniq: nat): string {
    "sstable_l" + Digits(level, 10) + "_t" + Digits(secs, 10) + "_" + Digits(uniq, 16) + ".sst"
  }

  function ParseLevel(name: string): Option<nat> {
    if !EndsWith(name, ".sst") then None
    else if StartsWith(name, "sstable_l") then ParseUnsigned(FirstPart(name[9..]), 10)
    else if StartsWith(name, "L") then
      var part := FirstPart(name);
      if StartsWith(part, "L") then ParseUnsigned(part[1..], 10) else None
    else None
  }

  function ParseFlushSequence(name: string): Option<nat> {
    if !EndsWith(name, ".sst") || !StartsWith(name, "L") then None
    else match SplitOnce(name[1..])
      case None => None
      case Some((_, rest)) =>
        if EndsWith(rest, ".sst") then ParseUnsigned(rest[..|rest| - 4], 16) else None
  }

  lemma Suffixed(body: string)
    ensures EndsWith(body + ".sst", ".sst") && |body + ".sst"| == |body| + 4 && (body + ".sst")[..|body|] == body
  {
    assert (body + ".sst")[|body|..] == ".sst";
  }

  lemma FlushParts(digits: string)
    ensures var name := "L0_" + digits + ".sst";
            && EndsWith(name, ".sst") && StartsWith(name, "L") && !StartsWith(name, "sstable_l")
            && SplitOnce(name) == Some(("L0", digits + ".sst"))
            && SplitOnce(name[1..]) == Some(("0", digits + ".sst"))
  {
    var name, rest := "L0_" + digits + ".sst", digits + ".sst";
    hide SplitOnce;
    Suffixed("L0_" + digits);
    hide EndsWith;
    assert name[0] == 'L' && "sstable_l"[0] == 's';
    assert name == "L0" + "_" + rest;
    SplitsAtFirst("L0", rest);
    assert name[1..] == "0" + "_" + rest;
    SplitsAtFirst("0", rest);
  }

  lemma ZeroReads()
    ensures ParseUnsigned("0", 10) == Some(0)
  {
    NumberOfMore("", '0', 10);
    assert "" + ['0'] == "0";
  }

  /** The name of a flushed file reads back as its number and as level 0. */
  lemma FlushNameReadsBack(seqno: nat)
    requires seqno <= U64_MAX
    ensures ParseFlushSequence(FlushName(seqno)) == Some(seqno)
    ensures ParseLevel(FlushName(seqno)) == Some(0)
  {
    var digits := ZeroPadded(Digits(seqno, 16), 16);
    DigitsArePlain(seqno, 16);
    DigitsReadBack(seqno, 16);
    PaddingReadsBack(Digits(seqno, 16), 16, 16);
    FlushParts(digits);
    Suffixed(digits);
    ZeroReads();
    assert "L0"[1..] == "0" && StartsWith("L0", "L");
    hide Digits, ZeroPadded, Number, SplitOnce, EndsWith, StartsWith;
    var name := "L0_" + digits + ".sst";
    assert FlushName(seqno) == name;
    assert ParseUnsigned(digits, 16) == Some(seqno);
    assert ParseFlushSequence(name) == Some(seqno);
    assert FirstPart(name) == "L0";
  }

  lemma CompactParts(digits: string, rest: string)
    requires '_' !in digits
    ensures var name := "sstable_l" + digits + "_" + rest + ".sst";
            && EndsWith(name, ".sst") && !StartsWith(name, "L") && StartsWith(name, "sstable_l")
            && SplitOnce(name[9..]) == Some((digits, rest + ".sst"))
  {
    var name := "sstable_l" + digits + "_" + rest + ".sst";
    hide SplitOnce;
    Suffixed("sstable_l" + digits + "_" + rest);
    hide EndsWith;
    assert name[0] == 's';
    assert name[9..] == digits + "_" + (rest + ".sst");
    SplitsAtFirst(digits, rest + ".sst");
  }

  /** The name of a compacted file reads back as its level and never as a flush number. */
  lemma CompactNameReadsBack(level: nat, secs: nat, uniq: nat)
    requires level <= U64_MAX
    ensures ParseLevel(CompactName(level, secs, uniq)) == Some(level)
    ensures ParseFlushSequence(CompactName(level, secs, uniq)) == None
  {
    var digits, rest := Digits(level, 10), "t" + Digits(secs, 10) + "_" + Digits(uniq, 16);
    DigitsArePlain(level, 10);
    DigitsReadBack(level, 10);
    CompactParts(digits, rest);
    CompactNameIs(level, secs, uniq);
    hide Digits, Number, SplitOnce, EndsWith, StartsWith, CompactName;
    assert ParseUnsigned(digits, 10) == Some(level);
  }

  lemma CompactNameIs(level: nat, secs: nat, uniq: nat)
    ensures CompactName(level, secs, uniq) ==
            "sstable_l" + Digits(level, 10) + "_" + ("t" + Digits(secs, 10) + "_" + Digits(uniq, 16)) + ".sst"
  {
    hide Digits;
    assert "_t" == "_" + "t";
  }

  /** Different numbers give different names, so that no two files share a path. */
  lemma NamesAreDistinct(a: nat, b: nat, level: nat, secs: nat, uniq: nat)
    requires a <= U64_MAX && b <= U64_MAX && level <= U64_MAX
    ensures FlushName(a) == FlushName(b) ==> a == b
    ensures FlushName(a) != CompactName(level, secs, uniq)
  {
    hide FlushName, CompactName, ParseFlushSequence;
    FlushNameReadsBack(a);
    FlushNameReadsBack(b);
    CompactNameReadsBack(level, secs, uniq);
  }

  lemma CompactNamesAreDistinct(level: nat, secs: nat, uniq: nat, level': nat, secs': nat, uniq': nat)
    requires level <= U64_MAX && secs <= U64_MAX && uniq <= U64_MAX
    requires level' <= U64_MAX && secs' <= U64_MAX && uniq' <= U64_MAX
    requires CompactName(level, secs, uniq) == CompactName(level', secs', uniq')
    ensures level == level' && secs == secs' && uniq == uniq'
  {
    CompactNameReadsBack(level, secs, uniq);
    CompactNameReadsBack(level', secs', uniq');
    AfterLevel(level, secs, uniq);
    AfterLevel(level', secs', uniq');
    AfterSecs(secs, uniq);
    AfterSecs(secs', uniq');
    Suffixed(Digits(uniq, 16));
    Suffixed(Digits(uniq', 16));
    hide CompactName, SplitOnce, Digits, Number;
    DigitsReadBack(secs, 10);
    DigitsReadBack(secs', 10);
    DigitsReadBack(uniq, 16);
    DigitsReadBack(uniq', 16);
  }

  lemma AfterLevel(level: nat, secs: nat, uniq: nat)
    ensures |CompactName(level, secs, uniq)| >= 9
    ensures SplitOnce(CompactName(level, secs, uniq)[9..]) ==
            Some((Digits(level, 10), "t" + Digits(secs, 10) + "_" + Digits(uniq, 16) + ".sst"))
  {
    DigitsArePlain(level, 10);
    CompactNameIs(level, secs, uniq);
    hide Digits, SplitOnce, CompactName;
    CompactParts(Digits(level, 10), "t" + Digits(secs, 10) + "_" + Digits(uniq, 16));
  }

  lemma AfterSecs(secs: nat, uniq: nat)
    ensures var tail := "t" + Digits(secs, 10) + "_" + Digits(uniq, 16) + ".sst";
            SplitOnce(tail[1..]) == Some((Digits(secs, 10), Digits(uniq, 16) + ".sst"))
  {
    DigitsArePlain(secs, 10);
    hide Digits, SplitOnce;
    var last := Digits(uniq, 16) + ".sst";
    var tail := "t" + Digits(secs, 10) + "_" + Digits(uniq, 16) + ".sst";
    assert tail[1..] == Digits(secs, 10) + "_" + last;
    SplitsAtFirst(Digits(secs, 10), last);
  }

  /** Flush names have the same length for every 64-bit number: sixteen digits. */
  lemma FlushNameWidth(n: nat)
    requires n <= U64_MAX
    ensures |FlushName(n)| == |"L0_"| + 16 + |".sst"|
  {
    assert Power(16, 4) == 0x1_0000;
    assert Power(16, 8) == 0x1_0000_0000;
    assert Power(16, 12) == 0x1_0000_0000_0000;
    assert Power(16, 16) == U64_MAX + 1;
    DigitsWidth(n, 16, 16);
    hide Digits;
    PaddedWidth(Digits(n, 16), 16);
  }

  function Power(base: nat, k: nat): nat {
    if k == 0 then 1 else base * Power(base, k - 1)
  }

  lemma {:induction false} DigitsWidth(n: nat, base: nat, k: nat)
    requires 2 <= base <= 16 && k > 0 && n < Power(base, k)
    ensures |Digits(n, base)| <= k
  {
    hide DigitChar;
    if n >= base {
      QuotientShrinks(n, base);
      QuotientFits(n, base, Power(base, k - 1));
      assert k > 1;
      DigitsWidth(n / base, base, k - 1);
    }
  }

  lemma QuotientFits(n: nat, base: nat, rest: nat)
    requires 0 < base && n < base * rest
    ensures n / base < rest
  {
  }

  lemma {:induction false} PaddedWidth(s: string, width: nat)
    ensures |ZeroPadded(s, width)| == if |s| >= width then |s| else width
    decreases width - |s|
  {
    if |s| < width {
      PaddedWidth("0" + s, width);
    }
  }
}
