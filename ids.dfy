/**
 * The enum constants of the demo and the identifier format of
 * `generateEmployeeId` / `generateOfficeId`: the type code, a hyphen and a
 * number drawn at random below 99999, printed in decimal. The random draw is
 * not modelled; the number is a parameter restricted to the range it can take.
 */
module IdFormats {
  import opened Wrappers
  import PathStrings

  /** `nextInt(99999)` returns a value in [0, 99999): the bound is exclusive. */
  const IdBound: nat := 99999

  const IdSeparator: char := '-'

  datatype EmployeeRole =
    | Ceo | Director | Manager
    | SoftwareDevelopmentEngineer | SoftwareDevelopmentEngineerInTest | DataScientist
  {
    /** The short code that prefixes a generated employee id. */
    function Code(): (c: string)
      ensures PathStrings.Separator !in c
    {
      match this
      case Ceo => "ceo"
      case Director => "director"
      case Manager => "manager"
      case SoftwareDevelopmentEngineer => "sde"
      case SoftwareDevelopmentEngineerInTest => "sdet"
      case DataScientist => "datascientist"
    }

    /** Java's `toString()` of the enum constant, stored in the employee_role attribute. */
    function Name(): string
    {
      match this
      case Ceo => "CEO"
      case Director => "DIRECTOR"
      case Manager => "MANAGER"
      case SoftwareDevelopmentEngineer => "SOFTWARE_DEVELOPMENT_ENGINEER"
      case SoftwareDevelopmentEngineerInTest => "SOFTWARE_DEVELOPMENT_ENGINEER_IN_TEST"
      case DataScientist => "DATA_SCIENTIST"
    }
  }

  datatype OfficeType = Headquarters | EngineeringOffice | ResearchOffice
  {
    /** The short code that prefixes a generated office id. */
    function Code(): (c: string)
      ensures PathStrings.Separator !in c
    {
      match this
      case Headquarters => "headquarter"
      case EngineeringOffice => "engineering_office"
      case ResearchOffice => "research_office"
    }
  }

  predicate IsDigit(c: char)
  {
    '0' <= c <= '9'
  }

  predicate IsDigits(s: string)
  {
    forall i :: 0 <= i < |s| ==> IsDigit(s[i])
  }

  /** A decimal numeral as Java prints a non-negative int: digits, no leading zero. */
  predicate IsCanonicalDecimal(s: string)
  {
    |s| >= 1 && IsDigits(s) && (s[0] == '0' ==> |s| == 1)
  }

  /** The value a string of decimal digits denotes (reference definition). */
  function DecimalValue(s: string): nat
    requires IsDigits(s)
  {
    if s == [] then 0
    else DecimalValue(s[..|s| - 1]) * 10 + (s[|s| - 1] as int - '0' as int)
  }

  function DigitChar(d: nat): (c: char)
    requires d < 10
    ensures IsDigit(c) && c as int - '0' as int == d
  {
    ('0' as int + d) as char
  }

  /** `%s` applied to a non-negative int: its decimal numeral. */
  function Decimal(n: nat): (r: string)
    ensures IsCanonicalDecimal(r)
    ensures DecimalValue(r) == n
    ensures n < 10 <==> |r| == 1
  {
    if n < 10 then [DigitChar(n)]
    else
      var r := Decimal(n / 10) + [DigitChar(n % 10)];
      assert r[..|r| - 1] == Decimal(n / 10);
      r
  }

  function Pow10(k: nat): (r: nat)
    ensures r >= 1
  {
    if k == 0 then 1 else 10 * Pow10(k - 1)
  }

  /** A numeral has at most k digits exactly when its value is below 10^k. */
  lemma {:induction false} DecimalLength(n: nat, k: nat)
    requires k >= 1
    ensures |Decimal(n)| <= k <==> n < Pow10(k)
  {
    if n < 10 {
    } else if k == 1 {
    } else {
      DecimalLength(n / 10, k - 1);
    }
  }

  /** A canonical numeral is the printed form of its own value. */
  lemma {:induction false} DecimalOfValue(s: string)
    requires IsCanonicalDecimal(s)
    ensures Decimal(DecimalValue(s)) == s
  {
    if |s| == 1 {
    } else {
      var init := s[..|s| - 1];
      assert IsCanonicalDecimal(init);
      DecimalOfValue(init);
      LeadingDigitNonZero(init);
      assert DecimalValue(s) / 10 == DecimalValue(init);
      assert DecimalValue(s) % 10 == s[|s| - 1] as int - '0' as int;
      assert s == init + [s[|s| - 1]];
    }
  }

  /** A canonical numeral of two or more digits denotes at least 10. */
  lemma {:induction false} LeadingDigitNonZero(s: string)
    requires IsCanonicalDecimal(s)
    ensures |s| >= 2 ==> DecimalValue(s) >= 10
    ensures |s| >= 1 && s[0] != '0' ==> DecimalValue(s) >= 1
  {
    if |s| >= 2 {
      var init := s[..|s| - 1];
      assert IsCanonicalDecimal(init) && init[0] == s[0];
      LeadingDigitNonZero(init);
    }
  }

  /** The code, a hyphen, then the number in decimal. */
  function FormatId(code: string, n: nat): (r: string)
    ensures |r| == |code| + 1 + |Decimal(n)|
    ensures r[..|code|] == code && r[|code|] == IdSeparator
  {
    code + [IdSeparator] + Decimal(n)
  }

  /** `EmployeeRole.generateEmployeeId()` with the random draw supplied as `n`. */
  function GenerateEmployeeId(role: EmployeeRole, n: nat): (r: string)
    requires n < IdBound
    ensures 2 + |role.Code()| <= |r| <= |role.Code()| + 6
    ensures ParseId(r) == Some((role.Code(), n))
    ensures PathStrings.Separator !in r
  {
    GeneratedIdFacts(role.Code(), n);
    FormatId(role.Code(), n)
  }

  /** `OfficeType.generateOfficeId()` with the random draw supplied as `n`. */
  function GenerateOfficeId(officeType: OfficeType, n: nat): (r: string)
    requires n < IdBound
    ensures 2 + |officeType.Code()| <= |r| <= |officeType.Code()| + 6
    ensures ParseId(r) == Some((officeType.Code(), n))
    ensures PathStrings.Separator !in r
  {
    GeneratedIdFacts(officeType.Code(), n);
    FormatId(officeType.Code(), n)
  }

  /** What every generated id satisfies: at most five digits, parseable, no path separator. */
  lemma GeneratedIdFacts(code: string, n: nat)
    requires n < IdBound
    requires PathStrings.Separator !in code
    ensures 2 + |code| <= |FormatId(code, n)| <= |code| + 6
    ensures ParseId(FormatId(code, n)) == Some((code, n))
    ensures PathStrings.Separator !in FormatId(code, n)
  {
    assert Pow10(5) == 100000;
    DecimalLength(n, 5);
    FormatIdRoundTrip(code, n);
    FormatIdHasNoSeparator(code, n);
  }

  /**
   * Splits an identifier at its last '-' into the code and the number, when
   * what follows is a canonical decimal numeral (the inverse of FormatId).
   */
  function ParseId(id: string): Option<(string, nat)>
  {
    var i := PathStrings.LastIndexOf(id, IdSeparator);
    if i < 0 || !IsCanonicalDecimal(id[i + 1..]) then None
    else Some((id[..i], DecimalValue(id[i + 1..])))
  }

  /** Parsing a formatted id gives back its code and number, whatever the code. */
  lemma FormatIdRoundTrip(code: string, n: nat)
    ensures ParseId(FormatId(code, n)) == Some((code, n))
  {
  }

  /** Every id ParseId accepts is the formatted form of what it parses to. */
  lemma ParseIdInverse(id: string)
    requires ParseId(id).Some?
    ensures FormatId(ParseId(id).value.0, ParseId(id).value.1) == id
  {
    var i := PathStrings.LastIndexOf(id, IdSeparator);
    DecimalOfValue(id[i + 1..]);
    assert id == id[..i] + [IdSeparator] + id[i + 1..];
  }

  lemma FormatIdHasNoSeparator(code: string, n: nat)
    requires PathStrings.Separator !in code
    ensures PathStrings.Separator !in FormatId(code, n)
  {
  }
}
