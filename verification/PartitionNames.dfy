/** How monthly partitions and their archives are named, and how the names are read back. */
module PartitionNames {
  import opened Wrappers
  import opened Calendar

  datatype PartitionInfo = PartitionInfo(name: string, start: Date, end: Date)

  function Digit(n: int): char
    requires 0 <= n < 10
  {
    '0' + n as char
  }

  function Decimal(n: nat): string {
    if n < 10 then [Digit(n)] else Decimal(n / 10) + [Digit(n % 10)]
  }

  function Zeros(n: int): string {
    if n <= 0 then "" else "0" + Zeros(n - 1)
  }

  /** Zero-padded decimal; a minus sign counts towards the width. */
  function Padded(n: int, width: nat): string {
    if n < 0 then "-" + Zeros(width - 1 - |Decimal(-n)|) + Decimal(-n)
    else Zeros(width - |Decimal(n)|) + Decimal(n)
  }

  const PREFIX := "audit_events_"

  function PartitionName(year: int, month: nat): string {
    PREFIX + Padded(year, 4) + "_" + Padded(month, 2)
  }

  predicate IsDigit(c: char) {
    '0' <= c <= '9'
  }

  predicate AllDigits(s: string) {
    forall i :: 0 <= i < |s| ==> IsDigit(s[i])
  }

  predicate ValidName(name: string) {
    |name| == 20 && PREFIX <= name && AllDigits(name[13..17]) && name[17] == '_' && AllDigits(name[18..20])
  }

  function Value(s: string): nat
    requires AllDigits(s)
  {
    if s == "" then 0 else 10 * Value(s[..|s| - 1]) + (s[|s| - 1] - '0') as nat
  }

  /** Parsing a signed integer: an optional sign and at least one digit. */
  function ParseSigned(s: string): Option<int> {
    if s != "" && (s[0] == '+' || s[0] == '-') then
      if |s| > 1 && AllDigits(s[1..]) then Some((if s[0] == '-' then -1 else 1) * Value(s[1..])) else None
    else if s != "" && AllDigits(s) then Some(Value(s))
    else None
  }

  /** Parsing an unsigned integer: a plus sign is accepted, a minus sign is not. */
  function ParseUnsigned(s: string): Option<int> {
    if s != "" && s[0] == '-' then None else ParseSigned(s)
  }

  function NextMonth(year: int, month: int): Option<Date> {
    if month == 12 then FromYmd(year + 1, 1, 1) else FromYmd(year, month + 1, 1)
  }

  function ParsePartitionName(name: string): Option<PartitionInfo> {
    if |name| != 20 || !(PREFIX <= name) then None
    else
      match (ParseSigned(name[13..17]), ParseUnsigned(name[18..20]))
      case (Some(year), Some(month)) =>
        var start, end := FromYmd(year, month, 1), NextMonth(year, month);
        if start.None? || end.None? then None else Some(PartitionInfo(name, start.value, end.value))
      case _ => None
  }

  function Pow10(k: nat): nat {
    if k == 0 then 1 else 10 * Pow10(k - 1)
  }

  lemma {:induction false} DecimalLength(n: nat, k: nat)
    requires k >= 1
    ensures |Decimal(n)| <= k <==> n < Pow10(k)
    decreases k
  {
    assert Pow10(k) == 10 * Pow10(k - 1);
    if k == 1 {
      assert n >= 10 ==> |Decimal(n / 10)| >= 1;
    } else {
      DecimalLength(n / 10, k - 1);
      DecimalLength(0, k - 1);
    }
  }

  lemma {:induction false} ValueBound(s: string)
    requires AllDigits(s)
    ensures Value(s) < Pow10(|s|)
  {
    if s != "" {
      ValueBound(s[..|s| - 1]);
    }
  }

  lemma {:induction false} ValueInjective(s: string, t: string)
    requires AllDigits(s) && AllDigits(t) && |s| == |t| && Value(s) == Value(t)
    ensures s == t
  {
    if s != "" {
      var n := |s| - 1;
      ValueInjective(s[..n], t[..n]);
      assert s == s[..n] + [s[n]] && t == t[..n] + [t[n]];
    }
  }

  lemma {:induction false} DecimalReads(n: nat)
    ensures AllDigits(Decimal(n)) && Value(Decimal(n)) == n
  {
    if n < 10 {
      assert Value([Digit(n)]) == 10 * Value([Digit(n)][..0]) + n;
    } else {
      DecimalReads(n / 10);
      assert Decimal(n)[..|Decimal(n)| - 1] == Decimal(n / 10);
    }
  }

  lemma {:induction false} ZerosDoNotCount(k: int, s: string)
    requires AllDigits(s)
    ensures AllDigits(Zeros(k) + s) && Value(Zeros(k) + s) == Value(s) && |Zeros(k)| == if k > 0 then k else 0
    decreases if k > 0 then k else 0, |s|
  {
    if s != "" {
      ZerosDoNotCount(k, s[..|s| - 1]);
      assert (Zeros(k) + s)[..|Zeros(k) + s| - 1] == Zeros(k) + s[..|s| - 1];
    } else if k > 0 {
      ZerosDoNotCount(k - 1, "0");
      assert Zeros(k - 1) + "0" == "0" + Zeros(k - 1) by { ZerosCommute(k - 1); }
      assert Value("0") == 10 * Value("0"[..0]);
      assert Zeros(k) + s == Zeros(k);
    }
  }

  lemma {:induction false} ZerosCommute(k: int)
    ensures Zeros(k) + "0" == "0" + Zeros(k)
  {
    if k > 0 {
      ZerosCommute(k - 1);
      assert Zeros(k) + "0" == "0" + (Zeros(k - 1) + "0");
    }
  }

  /** A number that fits the width prints at that width, in digits that read back as the number. */
  lemma PaddedReads(n: nat, width: nat)
    requires width >= 1
    ensures AllDigits(Padded(n, width)) && Value(Padded(n, width)) == n
    ensures |Padded(n, width)| >= width
    ensures |Padded(n, width)| == width <==> n < Pow10(width)
  {
    DecimalReads(n);
    ZerosDoNotCount(width - |Decimal(n)|, Decimal(n));
    DecimalLength(n, width);
  }

  /** Digits are what their value prints at their length. */
  lemma DigitsPrint(s: string)
    requires AllDigits(s) && s != ""
    ensures Padded(Value(s), |s|) == s
  {
    ValueBound(s);
    PaddedReads(Value(s), |s|);
    ValueInjective(Padded(Value(s), |s|), s);
  }

  lemma Powers()
    ensures Pow10(2) == 100 && Pow10(4) == 10000
  {
    assert Pow10(1) == 10;
    assert Pow10(3) == 1000;
  }

  lemma NameParts(year: nat, month: nat)
    requires year <= 9999 && month <= 99
    ensures
      var name := PartitionName(year, month);
      |name| == 20 && PREFIX <= name && name[13..17] == Padded(year, 4) && name[17] == '_' &&
        name[18..20] == Padded(month, 2)
  {
    Powers();
    PaddedReads(year, 4);
    PaddedReads(month, 2);
    NameOf(Padded(year, 4), Padded(month, 2));
  }

  lemma NameOf(y: string, m: string)
    requires |y| == 4 && |m| == 2
    ensures
      var name := PREFIX + y + "_" + m;
      |name| == 20 && PREFIX <= name && name[13..17] == y && name[17] == '_' && name[18..20] == m
  {
  }

  lemma DigitsParse(s: string)
    requires AllDigits(s) && s != ""
    ensures ParseSigned(s) == Some(Value(s)) && ParseUnsigned(s) == Some(Value(s))
  {
    assert IsDigit(s[0]);
  }

  lemma NextMonthStarts(year: int, month: int)
    requires 0 <= year <= 9999 && 1 <= month <= 12
    ensures FromYmd(year, month, 1) == Some(Date(year, month, 1)) &&
      NextMonth(year, month) == Some(MonthStart(12 * year + month))
  {
    assert month < 12 ==> (12 * year + month) / 12 == year && (12 * year + month) % 12 == month;
  }

  lemma MonthReads(name: string, year: int, month: int)
    requires |name| == 20 && PREFIX <= name && 0 <= year <= 9999 && 1 <= month <= 12
    requires ParseSigned(name[13..17]) == Some(year) && ParseUnsigned(name[18..20]) == Some(month)
    ensures ParsePartitionName(name) == Some(PartitionInfo(name, Date(year, month, 1), MonthStart(12 * year + month)))
  {
    NextMonthStarts(year, month);
  }

  /** A printed name is accepted and reads back as the first day of its month and of the next. */
  lemma PrintedNameReadsBack(year: int, month: nat)
    requires 0 <= year <= 9999 && 1 <= month <= 12
    ensures ValidName(PartitionName(year, month))
    ensures ParsePartitionName(PartitionName(year, month)) ==
      Some(PartitionInfo(PartitionName(year, month), Date(year, month, 1), MonthStart(12 * year + month)))
  {
    NameParts(year, month);
    PaddedReads(year, 4);
    PaddedReads(month, 2);
    DigitsParse(Padded(year, 4));
    DigitsParse(Padded(month, 2));
    MonthReads(PartitionName(year, month), year, month);
  }

  /** A month of the calendar has a name that the archiver accepts exactly in the years 0 to 9999. */
  lemma PrintedNameValidIff(year: int, month: nat)
    requires 1 <= month <= 12
    ensures ValidName(PartitionName(year, month)) <==> 0 <= year <= 9999
  {
    if year < 0 {
      assert PartitionName(year, month)[13] == '-';
      assert PartitionName(year, month)[13..17][0] == '-';
    } else if year <= 9999 {
      PrintedNameReadsBack(year, month);
    } else {
      Powers();
      PaddedReads(year, 4);
      PaddedReads(month, 2);
    }
  }

  lemma SignedValue(s: string)
    requires |s| == 4 && ParseSigned(s).Some?
    ensures ParseSigned(s).value <= 9999
  {
    Powers();
    assert Pow10(3) == 1000;
    if AllDigits(s) {
      ValueBound(s);
    } else {
      ValueBound(s[1..]);
    }
  }

  /** The digits of a valid name that parses are its year and its month. */
  lemma ValidIsPrinted(name: string)
    requires ValidName(name) && ParsePartitionName(name).Some?
    ensures
      var start := ParsePartitionName(name).value.start;
      0 <= start.year && name == PartitionName(start.year, start.month)
  {
    var y, k := name[13..17], name[18..20];
    DigitsParse(y);
    DigitsParse(k);
    ParsedStart(name, Value(y), Value(k));
    DigitsPrint(y);
    DigitsPrint(k);
    assert name == PREFIX + y + "_" + k;
  }

  lemma ParsedStart(name: string, year: int, month: int)
    requires ParsePartitionName(name).Some?
    requires ParseSigned(name[13..17]) == Some(year) && ParseUnsigned(name[18..20]) == Some(month)
    ensures ParsePartitionName(name).value.start == Date(year, month, 1) && 1 <= month <= 12
  {
  }

  /** Among the names that parse, validation accepts exactly those that printing the parsed month gives
      back, for years from zero on. */
  lemma ValidIffPrinted(name: string)
    requires ParsePartitionName(name).Some?
    ensures
      var start := ParsePartitionName(name).value.start;
      ValidName(name) <==> 0 <= start.year && name == PartitionName(start.year, start.month)
  {
    var start := ParsePartitionName(name).value.start;
    if ValidName(name) {
      ValidIsPrinted(name);
    } else if 0 <= start.year && name == PartitionName(start.year, start.month) {
      SignedValue(name[13..17]);
      ParsedStart(name, ParseSigned(name[13..17]).value, ParseUnsigned(name[18..20]).value);
      PrintedNameReadsBack(start.year, start.month);
    }
  }

  function StorageKey(prefix: string, name: string): string
    requires |name| >= 20
  {
    prefix + "year=" + name[13..17] + "/month=" + name[18..20] + "/" + name + ".parquet"
  }

  /** A partition is named after its four-digit year and two-digit month, and archived by year and month. */
  lemma NamesAreSpelled(prefix: string, year: int, month: nat)
    requires 0 <= year <= 9999 && 1 <= month <= 12
    ensures
      var y, m := Padded(year, 4), Padded(month, 2);
      && |y| == 4 && AllDigits(y) && Value(y) == year && |m| == 2 && AllDigits(m) && Value(m) == month
      && PartitionName(year, month) == "audit_events_" + y + "_" + m
      && |PartitionName(year, month)| == 20
      && StorageKey(prefix, PartitionName(year, month)) ==
        prefix + "year=" + y + "/month=" + m + "/" + "audit_events_" + y + "_" + m + ".parquet"
  {
    Powers();
    PaddedReads(year, 4);
    PaddedReads(month, 2);
    NameParts(year, month);
    var y, m := Padded(year, 4), Padded(month, 2);
    assert prefix + "year=" + y + "/month=" + m + "/" + ("audit_events_" + y + "_" + m) + ".parquet" ==
      prefix + "year=" + y + "/month=" + m + "/" + "audit_events_" + y + "_" + m + ".parquet";
  }

  /** Distinct partitions never share an archive. */
  lemma StorageKeysDistinct(prefix: string, a: string, b: string)
    requires |a| == 20 && |b| == 20 && StorageKey(prefix, a) == StorageKey(prefix, b)
    ensures a == b
  {
    var n := |prefix| + 5 + 4 + 7 + 2 + 1;
    assert StorageKey(prefix, a)[n..n + 20] == a;
    assert StorageKey(prefix, b)[n..n + 20] == b;
  }

  /** The name of the partition of a month. */
  function MonthName(m: int): string {
    PartitionName(m / 12, m % 12 + 1)
  }

  lemma YearAndMonth(m: int)
    requires 0 <= m < 120000
    ensures 0 <= m / 12 <= 9999 && 1 <= m % 12 + 1 <= 12 && 12 * (m / 12) + (m % 12 + 1) == m + 1
  {
  }

  lemma MonthNameValid(m: int)
    requires 0 <= m < 120000
    ensures |MonthName(m)| == 20 && ValidName(MonthName(m))
  {
    YearAndMonth(m);
    PrintedNameReadsBack(m / 12, m % 12 + 1);
  }

  lemma NameReadsBackAs(name: string, year: int, month: int, start: Date, end: Date)
    requires 0 <= year <= 9999 && 1 <= month <= 12 && name == PartitionName(year, month)
    requires start == Date(year, month, 1) && end == MonthStart(12 * year + month)
    ensures ParsePartitionName(name) == Some(PartitionInfo(name, start, end))
  {
    PrintedNameReadsBack(year, month);
  }

  lemma MonthNameReadsBack(m: int)
    requires 0 <= m < 120000
    ensures ParsePartitionName(MonthName(m)) == Some(PartitionInfo(MonthName(m), MonthStart(m), MonthStart(m + 1)))
  {
    YearAndMonth(m);
    NameReadsBackAs(MonthName(m), m / 12, m % 12 + 1, MonthStart(m), MonthStart(m + 1));
  }

  /** Distinct months have distinct names. */
  lemma NamesDistinct(m: int, n: int)
    requires 0 <= m < 120000 && 0 <= n < 120000 && MonthName(m) == MonthName(n)
    ensures m == n
  {
    MonthNameReadsBack(m);
    MonthNameReadsBack(n);
  }
}
