/**
 * The JSON converter for SensorType: a kind is written as its member name and
 * read back from a member name in any letter case.
 */
module SensorTypeJson {
  import opened Types

  function Name(kind: NamedType): string {
    match kind
    case Light => "Light"
    case Temperature => "Temperature"
    case Humidity => "Humidity"
  }

  function LowerAscii(c: char): char {
    if 'A' <= c <= 'Z' then (c as int - 'A' as int + 'a' as int) as char else c
  }

  /** Equality of two strings up to ASCII letter case. */
  predicate EqualsIgnoreCase(a: string, b: string) {
    |a| == |b| && forall i :: 0 <= i < |a| ==> LowerAscii(a[i]) == LowerAscii(b[i])
  }

  function DigitChar(d: nat): char
    requires d < 10
  {
    ('0' as int + d) as char
  }

  predicate IsDigit(c: char) { '0' <= c <= '9' }

  function NatToString(n: nat): (s: string)
    ensures |s| > 0 && forall i :: 0 <= i < |s| ==> IsDigit(s[i])
  {
    if n < 10 then [DigitChar(n)] else NatToString(n / 10) + [DigitChar(n % 10)]
  }

  /** The decimal form of an integer, as Enum.ToString gives for an unnamed value. */
  function IntToString(n: int): (s: string)
    ensures |s| > 0 && (s[0] == '-' || IsDigit(s[0]))
    ensures forall i :: 0 < i < |s| ==> IsDigit(s[i])
  {
    if n < 0 then "-" + NatToString(-n) else NatToString(n)
  }

  /** Write: the member's name; an unnamed value is written as its number. */
  function Write(value: SensorType): (s: string)
    ensures value.IsNamed() ==> s == Name(value)
    ensures value.Unnamed? ==> s == IntToString(value.code)
  {
    match value
    case Unnamed(code) => IntToString(code)
    case _ => Name(value)
  }

  /** Read: Enum.Parse with ignoreCase; a string naming no member throws. */
  function Read(s: string): (r: Result<SensorType>)
    ensures r.Ok? ==> r.value.IsNamed() && EqualsIgnoreCase(s, Name(r.value))
    ensures r.Err? ==> r.error == ArgumentException
  {
    if EqualsIgnoreCase(s, "Light") then Ok(Light)
    else if EqualsIgnoreCase(s, "Temperature") then Ok(Temperature)
    else if EqualsIgnoreCase(s, "Humidity") then Ok(Humidity)
    else Err(ArgumentException)
  }

  /** Reading accepts every case variant of a member's name, and gives that member. */
  lemma ReadIgnoresCase(s: string, kind: NamedType)
    requires EqualsIgnoreCase(s, Name(kind))
    ensures Read(s) == Ok(kind)
  {
    // the three names have different lengths, so at most one can match
  }

  /** A string that is no member's name in any case is rejected. */
  lemma ReadRejectsOtherNames(s: string)
    requires forall kind: NamedType :: !EqualsIgnoreCase(s, Name(kind))
    ensures Read(s) == Err(ArgumentException)
  {
    assert !EqualsIgnoreCase(s, Name(Light));
    assert !EqualsIgnoreCase(s, Name(Temperature));
    assert !EqualsIgnoreCase(s, Name(Humidity));
  }

  lemma EqualsIgnoreCaseReflexive(s: string)
    ensures EqualsIgnoreCase(s, s)
  {
  }

  /** Read(Write(v)) == v for every named member. */
  lemma ReadWrite(kind: NamedType)
    ensures Read(Write(kind)) == Ok(kind)
  {
    EqualsIgnoreCaseReflexive(Name(kind));
    ReadIgnoresCase(Name(kind), kind);
  }
}
