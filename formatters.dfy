/** The number formatting of the dashboard: western digits shown as Persian digits, integers
    grouped by three with the Arabic thousands separator, the Rial suffix, and the table of
    Persian month names. Strings are sequences of Unicode scalar values, as JavaScript strings
    are for these characters. */
module Formatters {
  import opened Wrappers
  import opened Calendar
  import opened Seqs

  // ---------------------------------------------------------------------------------------
  // Persian digits

  /** `persianDigits[d]`: the Extended Arabic-Indic digits U+06F0 to U+06F9. */
  function PersianDigit(d: int): char
    requires 0 <= d < 10
  {
    (0x06F0 + d) as char
  }

  predicate IsPersianDigit(c: char) {
    '\U{06F0}' <= c <= '\U{06F9}'
  }

  /** What `replace(/\d/g, ...)` does to one character: JavaScript's `\d` is the ASCII digits. */
  function PersianOf(c: char): (p: char)
    ensures IsDigit(c) ==> p == PersianDigit(c as int - '0' as int)
    ensures !IsDigit(c) ==> p == c
  {
    if IsDigit(c) then PersianDigit(c as int - '0' as int) else c
  }

  /** `toPersianDigits`: every ASCII digit replaced by the Persian digit of the same value,
      every other character kept, in place. */
  function ToPersianDigits(s: string): (r: string)
    ensures |r| == |s|
    ensures forall i :: 0 <= i < |s| ==> r[i] == PersianOf(s[i])
  {
    if s == [] then [] else [PersianOf(s[0])] + ToPersianDigits(s[1..])
  }

  /** The source's digit table, `persianDigits`. */
  const PersianDigitTable: seq<char> := ['۰', '۱', '۲', '۳', '۴', '۵', '۶', '۷', '۸', '۹']

  /** Each ASCII digit is replaced by the table's entry at its value, and each Persian
      digit is the entry at its own value. */
  lemma PersianDigitsMatchTable(c: char)
    ensures IsDigit(c) ==> PersianOf(c) == PersianDigitTable[c as int - '0' as int]
    ensures IsPersianDigit(c) ==> c == PersianDigitTable[c as int - 0x06F0]
  {
  }

  /** The output has no ASCII digit left, so a second pass changes nothing. */
  lemma ToPersianDigitsIdempotent(s: string)
    ensures forall i :: 0 <= i < |s| ==> !IsDigit(ToPersianDigits(s)[i])
    ensures ToPersianDigits(ToPersianDigits(s)) == ToPersianDigits(s)
  {
    var r := ToPersianDigits(s);
    assert forall i :: 0 <= i < |r| ==> ToPersianDigits(r)[i] == r[i];
  }

  /** Reading the Persian digits back as ASCII digits. */
  function LatinOf(c: char): char {
    if IsPersianDigit(c) then DigitChar(c as int - 0x06F0) else c
  }

  function LatinDigits(s: string): (r: string)
    ensures |r| == |s|
    ensures forall i :: 0 <= i < |s| ==> r[i] == LatinOf(s[i])
  {
    if s == [] then [] else [LatinOf(s[0])] + LatinDigits(s[1..])
  }

  /** On text without Persian digits of its own, the transliteration can be undone. */
  lemma LatinOfPersian(s: string)
    requires forall i :: 0 <= i < |s| ==> !IsPersianDigit(s[i])
    ensures LatinDigits(ToPersianDigits(s)) == s
  {
    var r := LatinDigits(ToPersianDigits(s));
    forall i | 0 <= i < |s| ensures r[i] == s[i] {
      LatinOfPersianChar(s[i]);
    }
  }

  lemma LatinOfPersianChar(c: char)
    requires !IsPersianDigit(c)
    ensures LatinOf(PersianOf(c)) == c
  {
    if IsDigit(c) {
      assert PersianOf(c) == PersianDigit(c as int - '0' as int);
    }
  }

  // ---------------------------------------------------------------------------------------
  // `Number(num).toFixed(0).split('.')` on an integer

  /** The shortest decimal numeral of `n`. */
  function DecimalString(n: nat): (s: string)
    ensures |s| >= 1 && AllDigits(s)
    ensures DecimalValue(s) == n
    ensures s[0] == '0' ==> n == 0
  {
    if n < 10 then [DigitChar(n)]
    else
      var init := DecimalString(n / 10);
      var s := init + [DigitChar(n % 10)];
      assert s[..|s| - 1] == init;
      s
  }

  /** The digits of an integer's absolute value. */
  function Magnitude(n: int): string {
    DecimalString(if n < 0 then -n else n)
  }

  /** `toFixed(0)` of an integer: a minus sign for a negative number, then its digits. */
  function FixedString(n: int): string {
    (if n < 0 then "-" else "") + Magnitude(n)
  }

  /** Reading a `toFixed(0)` numeral back. */
  function ReadInteger(s: string): int
    requires |s| >= 1
    requires s[0] == '-' ==> AllDigits(s[1..])
    requires s[0] != '-' ==> AllDigits(s)
  {
    if s[0] == '-' then -(DecimalValue(s[1..]) as int) else DecimalValue(s)
  }

  /** The numeral of an integer denotes that integer and has no decimal point. */
  lemma FixedStringValue(n: int)
    ensures '.' !in FixedString(n)
    ensures |FixedString(n)| >= 1
    ensures FixedString(n)[0] == '-' <==> n < 0
    ensures ReadInteger(FixedString(n)) == n
    ensures forall i :: 0 <= i < |FixedString(n)| ==> FixedString(n)[i] == '-' || IsDigit(FixedString(n)[i])
  {
    var s := FixedString(n);
    var m := Magnitude(n);
    if n < 0 {
      assert s == "-" + m && s[1..] == m;
      assert forall i :: 1 <= i < |s| ==> s[i] == m[i - 1];
    } else {
      assert s == m;
    }
    assert forall i :: 0 <= i < |s| ==> s[i] != '.';
  }

  /** `s.split(c)`: the pieces between occurrences of `c`. */
  function Split(s: string, c: char): (parts: seq<string>)
    ensures |parts| >= 1
    ensures forall i :: 0 <= i < |parts| ==> c !in parts[i]
  {
    if s == [] then [""]
    else
      var rest := Split(s[1..], c);
      if s[0] == c then [""] + rest
      else [[s[0]] + rest[0]] + rest[1..]
  }

  /** Joining the pieces with the character they were split on gives the string back, and text
      without the character is one piece. */
  lemma {:induction false} SplitJoin(s: string, c: char)
    ensures Join(Split(s, c), [c]) == s
    ensures c !in s ==> Split(s, c) == [s]
  {
    if s != [] {
      SplitJoin(s[1..], c);
      var rest := Split(s[1..], c);
      assert s == [s[0]] + s[1..];
      if s[0] == c {
        assert Join([""] + rest, [c]) == [c] + Join(rest, [c]);
      } else {
        if |rest| > 1 {
          assert Join(rest, [c]) == rest[0] + [c] + Join(rest[1..], [c]);
          assert ([[s[0]] + rest[0]] + rest[1..])[1..] == rest[1..];
        }
        assert c !in s ==> c !in s[1..];
      }
    }
  }

  // ---------------------------------------------------------------------------------------
  // `replace(/\B(?=(\d{3})+(?!\d))/g, SEP)`

  /** U+066C ARABIC THOUSANDS SEPARATOR. */
  const Separator: char := '\U{066C}'

  /** JavaScript's `\w`: ASCII letters, digits and `_`. */
  predicate IsWordChar(c: char) {
    'a' <= c <= 'z' || 'A' <= c <= 'Z' || IsDigit(c) || c == '_'
  }

  /** `\B` at position `i`, between `s[i - 1]` and `s[i]`: word characters on both sides or on
      neither, the ends of the string counting as non-word. */
  predicate NotWordBoundary(s: string, i: nat)
    requires i <= |s|
  {
    (i > 0 && IsWordChar(s[i - 1])) == (i < |s| && IsWordChar(s[i]))
  }

  /** The number of ASCII digits in a row from position `i`. */
  function DigitRun(s: string, i: nat): (n: nat)
    requires i <= |s|
    ensures i + n <= |s|
    decreases |s| - i
  {
    if i < |s| && IsDigit(s[i]) then 1 + DigitRun(s, i + 1) else 0
  }

  /** `(?=(\d{3})+(?!\d))` at `i`: the digits ahead, up to the first non-digit, make up one or
      more whole groups of three. */
  predicate GroupsOfThreeAhead(s: string, i: nat)
    requires i <= |s|
  {
    DigitRun(s, i) > 0 && DigitRun(s, i) % 3 == 0
  }

  /** The (empty) match positions of the pattern. */
  predicate SeparatorAt(s: string, i: nat)
    requires i <= |s|
  {
    NotWordBoundary(s, i) && GroupsOfThreeAhead(s, i)
  }

  /** What the replace puts in front of position `i`: a separator at a match, else nothing. */
  function Mark(s: string, i: nat): string
    requires i <= |s|
  {
    if SeparatorAt(s, i) then [Separator] else []
  }

  /** The global replace from position `i` on: every match position gets a separator, and the
      characters of `s` are kept. */
  function InsertSeparators(s: string, i: nat): string
    requires i <= |s|
    decreases |s| - i
  {
    Mark(s, i) + (if i < |s| then [s[i]] + InsertSeparators(s, i + 1) else [])
  }

  function GroupThousands(s: string): string {
    InsertSeparators(s, 0)
  }

  /** The text without its separators. */
  function Strip(s: string): (r: string)
    ensures Separator !in r
  {
    if s == [] then [] else (if s[0] == Separator then [] else [s[0]]) + Strip(s[1..])
  }

  lemma {:induction false} StripConcat(a: string, b: string)
    ensures Strip(a + b) == Strip(a) + Strip(b)
  {
    if a != [] {
      assert (a + b)[1..] == a[1..] + b;
      StripConcat(a[1..], b);
    } else {
      assert a + b == b;
    }
  }

  lemma {:induction false} DigitRunAll(ds: string, i: nat)
    requires AllDigits(ds) && i <= |ds|
    ensures DigitRun(ds, i) == |ds| - i
    decreases |ds| - i
  {
    if i < |ds| {
      DigitRunAll(ds, i + 1);
    }
  }

  /** Inside a run of digits a separator goes exactly where a multiple of three digits remain. */
  lemma SeparatorInDigits(ds: string, i: nat)
    requires AllDigits(ds) && 0 < i <= |ds|
    ensures SeparatorAt(ds, i) <==> i < |ds| && (|ds| - i) % 3 == 0
  {
    DigitRunAll(ds, i);
  }

  /** Reading from the right, positions 3, 7, 11, ... are separators and no other is. */
  predicate SeparatorPattern(t: string) {
    forall j :: 0 <= j < |t| ==> (t[|t| - 1 - j] == Separator <==> j % 4 == 3)
  }

  /** `m` digits grouped by three take `m + m / 3` characters; one more digit adds a separator
      exactly when it starts a new group. */
  lemma GroupedLength(m: nat)
    ensures (m + m / 3) % 4 == m % 3
    ensures (m + 1) + (m + 1) / 3 == m + m / 3 + 1 + (if m % 3 == 2 then 1 else 0)
  {
    var q, rr := m / 3, m % 3;
    assert m == 3 * q + rr;
    assert m + q == 4 * q + rr;
    if rr == 2 {
      assert m + 1 == 3 * (q + 1);
    } else {
      assert m + 1 == 3 * q + (rr + 1);
    }
  }

  /** Prepending a digit, and a separator before it when it starts a new group, keeps the
      pattern. */
  lemma PatternExtend(t: string, m: string, d: char)
    requires SeparatorPattern(t) && d != Separator
    requires |t| % 4 != 3
    requires m == [] || (m == [Separator] && |t| % 4 == 2)
    ensures SeparatorPattern(m + ([d] + t))
  {
    var u := m + ([d] + t);
    forall j | 0 <= j < |u| ensures u[|u| - 1 - j] == Separator <==> j % 4 == 3 {
      if j < |t| {
        assert u[|u| - 1 - j] == t[|t| - 1 - j];
      } else if j == |t| {
        assert u[|u| - 1 - j] == d;
      } else {
        assert u[|u| - 1 - j] == Separator;
      }
    }
  }

  lemma {:induction false} SeparatedLength(ds: string, i: nat)
    requires AllDigits(ds) && 0 < i <= |ds|
    ensures |InsertSeparators(ds, i)| == (|ds| - i) + (|ds| - i) / 3
    decreases |ds| - i
  {
    SeparatorInDigits(ds, i);
    if i < |ds| {
      SeparatedLength(ds, i + 1);
      GroupedLength(|ds| - i - 1);
    }
  }

  /** From the first digit on, the separated text of a digit string has one separator before
      each whole group of three digits counted from the right. */
  lemma {:induction false} SeparatedPattern(ds: string, i: nat)
    requires AllDigits(ds) && 0 < i <= |ds|
    ensures SeparatorPattern(InsertSeparators(ds, i))
    decreases |ds| - i
  {
    SeparatorInDigits(ds, i);
    if i < |ds| {
      SeparatedPattern(ds, i + 1);
      SeparatedLength(ds, i + 1);
      GroupedLength(|ds| - i - 1);
      var t := InsertSeparators(ds, i + 1);
      assert InsertSeparators(ds, i) == Mark(ds, i) + ([ds[i]] + t);
      PatternExtend(t, Mark(ds, i), ds[i]);
    }
  }

  lemma StripMark(s: string, i: nat)
    requires i <= |s|
    ensures Strip(Mark(s, i)) == []
  {
  }

  /** The inserted separators are all that is added: the text keeps its characters, in order. */
  lemma {:induction false} SeparatedStrip(s: string, i: nat)
    requires Separator !in s && i <= |s|
    ensures Strip(InsertSeparators(s, i)) == s[i..]
    decreases |s| - i
  {
    StripMark(s, i);
    if i < |s| {
      SeparatedStrip(s, i + 1);
      var t := InsertSeparators(s, i + 1);
      assert InsertSeparators(s, i) == Mark(s, i) + ([s[i]] + t);
      StripConcat(Mark(s, i), [s[i]] + t);
      StripConcat([s[i]], t);
      assert s[i] != Separator;
      assert s[i..] == [s[i]] + s[i + 1..];
    } else {
      assert InsertSeparators(s, i) == Mark(s, i);
    }
  }

  /** Grouping a numeral of digits: no separator before the first digit, one before each group
      of three digits counted from the right, and removing the separators gives the digits back. */
  lemma GroupDigits(ds: string)
    requires AllDigits(ds) && |ds| >= 1
    ensures |GroupThousands(ds)| == |ds| + (|ds| - 1) / 3
    ensures GroupThousands(ds)[0] == ds[0]
    ensures SeparatorPattern(GroupThousands(ds))
    ensures Strip(GroupThousands(ds)) == ds
  {
    DigitRunAll(ds, 0);
    assert !SeparatorAt(ds, 0);
    assert GroupThousands(ds) == Mark(ds, 0) + ([ds[0]] + InsertSeparators(ds, 1));
    SeparatedLength(ds, 1);
    SeparatedPattern(ds, 1);
    assert forall k :: 0 <= k < |ds| ==> ds[k] != Separator;
    SeparatedStrip(ds, 0);
    GroupedLength(|ds| - 1);
    PatternExtend(InsertSeparators(ds, 1), Mark(ds, 0), ds[0]);
  }

  /** A leading minus sign is not a word character, so nothing is inserted after it and the
      digits are grouped as they would be alone. */
  lemma {:induction false} SignedSuffix(ds: string, i: nat)
    requires AllDigits(ds) && 0 <= i <= |ds|
    ensures InsertSeparators("-" + ds, i + 1) == InsertSeparators(ds, i)
    decreases |ds| - i
  {
    var s := "-" + ds;
    SignedRun(ds, i);
    if i > 0 {
      assert s[i] == ds[i - 1];
    }
    if i < |ds| {
      assert s[i + 1] == ds[i];
    }
    assert SeparatorAt(s, i + 1) == SeparatorAt(ds, i);
    assert Mark(s, i + 1) == Mark(ds, i);
    if i < |ds| {
      SignedSuffix(ds, i + 1);
    }
  }

  lemma {:induction false} SignedRun(ds: string, i: nat)
    requires AllDigits(ds) && 0 <= i <= |ds|
    ensures DigitRun("-" + ds, i + 1) == DigitRun(ds, i)
    decreases |ds| - i
  {
    var s := "-" + ds;
    if i < |ds| {
      assert s[i + 1] == ds[i];
      SignedRun(ds, i + 1);
    }
  }

  lemma GroupNegative(ds: string)
    requires AllDigits(ds) && |ds| >= 1
    ensures GroupThousands("-" + ds) == "-" + GroupThousands(ds)
  {
    var s := "-" + ds;
    assert DigitRun(s, 0) == 0;
    assert !SeparatorAt(s, 0);
    SignedSuffix(ds, 0);
    assert GroupThousands(s) == "-" + InsertSeparators(s, 1);
  }

  // ---------------------------------------------------------------------------------------
  // `formatNumber` and `formatRial`

  /** What `formatNumber` shows: `"۰"` for `null` / `undefined`, otherwise the grouped numeral in
      Persian digits. */
  function FormattedNumber(num: Option<int>): string {
    match num
    case None => ToPersianDigits("0")
    case Some(n) => ToPersianDigits(GroupThousands(FixedString(n)))
  }

  /** `formatNumber`: split the numeral at the decimal point, group the integer part in place
      (`parts[0] = ...`), join the parts again and transliterate the digits. */
  method FormatNumber(num: Option<int>) returns (r: string)
    ensures r == FormattedNumber(num)
  {
    if num.None? {
      return ToPersianDigits("0");
    }
    var parts := Split(FixedString(num.value), '.');
    parts := parts[0 := GroupThousands(parts[0])];
    r := ToPersianDigits(Join(parts, "."));
    FixedStringValue(num.value);
    SplitJoin(FixedString(num.value), '.');
  }

  lemma FormatNullIsZero()
    ensures FormattedNumber(None) == "۰"
  {
  }

  /** Persian digits grouped by three from the right: a Persian digit first and, reading from
      the right, a separator at positions 3, 7, 11, ... and a Persian digit everywhere else. */
  predicate GroupedPersian(body: string) {
    && |body| >= 1
    && IsPersianDigit(body[0])
    && forall j :: 0 <= j < |body| ==>
         if j % 4 == 3 then body[|body| - 1 - j] == Separator else IsPersianDigit(body[|body| - 1 - j])
  }

  /** A formatted integer is its sign followed by the grouped digits of its magnitude, with one
      separator for each whole group of three digits after the first. */
  lemma FormattedNumberShape(n: int)
    ensures FormattedNumber(Some(n))
            == (if n < 0 then "-" else "") + ToPersianDigits(GroupThousands(Magnitude(n)))
    ensures |ToPersianDigits(GroupThousands(Magnitude(n)))| == |Magnitude(n)| + (|Magnitude(n)| - 1) / 3
    ensures GroupedPersian(ToPersianDigits(GroupThousands(Magnitude(n))))
  {
    var g := GroupThousands(Magnitude(n));
    GroupDigits(Magnitude(n));
    FormattedSign(n);
    StripDigits(g);
    PersianGroups(g);
  }

  /** The sign is kept in front of the grouped magnitude. */
  lemma FormattedSign(n: int)
    ensures FormattedNumber(Some(n))
            == (if n < 0 then "-" else "") + ToPersianDigits(GroupThousands(Magnitude(n)))
  {
    if n < 0 {
      var g := GroupThousands(Magnitude(n));
      assert FixedString(n) == "-" + Magnitude(n);
      GroupNegative(Magnitude(n));
      assert ToPersianDigits("-" + g) == "-" + ToPersianDigits(g);
    } else {
      assert FixedString(n) == Magnitude(n);
    }
  }

  /** Transliterating a grouped numeral keeps the separators where they are and turns every
      other character into a Persian digit. */
  lemma PersianGroups(g: string)
    requires |g| >= 1 && g[0] != Separator && SeparatorPattern(g)
    requires forall k :: 0 <= k < |g| && g[k] != Separator ==> IsDigit(g[k])
    ensures GroupedPersian(ToPersianDigits(g))
  {
    var body := ToPersianDigits(g);
    forall j | 0 <= j < |body|
      ensures if j % 4 == 3 then body[|body| - 1 - j] == Separator else IsPersianDigit(body[|body| - 1 - j])
    {
      var k := |g| - 1 - j;
      assert body[k] == PersianOf(g[k]);
    }
  }

  /** After grouping a digit string, everything except the separators is a digit. */
  lemma StripDigits(g: string)
    requires AllDigits(Strip(g))
    ensures forall k :: 0 <= k < |g| && g[k] != Separator ==> IsDigit(g[k])
  {
    forall k | 0 <= k < |g| && g[k] != Separator ensures IsDigit(g[k]) {
      StripKeeps(g, k);
    }
  }

  lemma {:induction false} StripKeeps(g: string, k: int)
    requires 0 <= k < |g| && g[k] != Separator
    ensures g[k] in Strip(g)
  {
    if k > 0 {
      StripKeeps(g[1..], k - 1);
      StripConcat(g[..1], g[1..]);
      assert g == g[..1] + g[1..];
    }
  }

  /** Removing the separators from a formatted integer and reading the Persian digits back
      gives the plain numeral, and so the integer. */
  lemma FormatNumberRoundTrip(n: int)
    ensures LatinDigits(Strip(FormattedNumber(Some(n)))) == FixedString(n)
    ensures ReadInteger(LatinDigits(Strip(FormattedNumber(Some(n))))) == n
  {
    var g := GroupThousands(FixedString(n));
    GroupedStrip(n);
    StripPersian(g);
    FixedStringValue(n);
    NoPersianDigits(FixedString(n));
    LatinOfPersian(FixedString(n));
  }

  /** Grouping inserts nothing but separators. */
  lemma GroupedStrip(n: int)
    ensures Strip(GroupThousands(FixedString(n))) == FixedString(n)
  {
    var ds := Magnitude(n);
    GroupDigits(ds);
    if n < 0 {
      assert FixedString(n) == "-" + ds;
      GroupNegative(ds);
      StripConcat("-", GroupThousands(ds));
    } else {
      assert FixedString(n) == ds;
    }
  }

  lemma NoPersianDigits(s: string)
    requires forall i :: 0 <= i < |s| ==> s[i] == '-' || IsDigit(s[i])
    ensures forall i :: 0 <= i < |s| ==> !IsPersianDigit(s[i])
  {
  }

  /** Transliterating the digits does not create or remove separators. */
  lemma {:induction false} StripPersian(s: string)
    ensures Strip(ToPersianDigits(s)) == ToPersianDigits(Strip(s))
  {
    if s != [] {
      StripPersian(s[1..]);
      assert ToPersianDigits(s)[1..] == ToPersianDigits(s[1..]);
      assert PersianOf(s[0]) == Separator <==> s[0] == Separator;
      var head: string := if s[0] == Separator then [] else [s[0]];
      assert ToPersianDigits(head + Strip(s[1..])) == ToPersianDigits(head) + ToPersianDigits(Strip(s[1..]));
    }
  }

  const RialSuffix := " ریال"

  /** `formatRial`: the formatted number followed by the Rial suffix; `null` / `undefined` shows
      a Persian zero Rial. */
  function FormatRial(amount: Option<int>): string {
    if amount.None? then ToPersianDigits("۰ ریال") else FormattedNumber(amount) + RialSuffix
  }

  /** Both branches agree: a Rial amount is always the formatted number and the suffix. */
  lemma RialIsNumberAndSuffix(amount: Option<int>)
    ensures FormatRial(amount) == FormattedNumber(amount) + RialSuffix
  {
    if amount.None? {
      assert FormattedNumber(amount) == "۰";
    }
  }

  // ---------------------------------------------------------------------------------------
  // Month names

  /** The Persian (Solar Hijri) month names, Farvardin first. */
  const PersianMonths: seq<string> := ["فروردین", "اردیبهشت", "خرداد", "تیر", "مرداد", "شهریور", "مهر", "آبان", "آذر", "دی", "بهمن", "اسفند"]

  /** `persianMonths[jm - 1]` for a Solar Hijri month number. */
  function MonthName(jm: int): string
    requires 1 <= jm <= 12
  {
    PersianMonths[jm - 1]
  }

  /** The table has a name for each of the twelve months and no two months share a name, so
      distinct months are always shown distinctly. */
  lemma MonthNamesDistinct(a: int, b: int)
    requires 1 <= a <= 12 && 1 <= b <= 12
    ensures |PersianMonths| == 12
    ensures MonthName(a) == MonthName(b) <==> a == b
  {
  }
}
