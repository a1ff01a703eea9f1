/** The fixed inputs of a code besides the names: the sex (`Genres`), the
    federal entity of birth (`FederalEntities`) and the birth date. */
module Catalog {
  import opened Wrappers

  /** `Genres`: the enum's values are the characters themselves. */
  datatype Genre = Male | Female {
    function Code(): (c: char)
      ensures c == 'H' <==> this == Male
      ensures c == 'M' <==> this == Female
    {
      match this
      case Male => 'H'
      case Female => 'M'
    }
  }

  /** Reading a sex code back. */
  function GenreOfCode(c: char): (g: Option<Genre>)
    ensures g.Some? <==> c == 'H' || c == 'M'
  {
    if c == 'H' then Some(Male) else if c == 'M' then Some(Female) else None
  }

  lemma GenreCodeRoundTrip(g: Genre)
    ensures GenreOfCode(g.Code()) == Some(g)
  {
  }

  /** `FederalEntities`: one value per state, plus born abroad. */
  datatype FederalEntity =
    | Aguascalientes | BajaCalifornia | BajaCaliforniaSur | Campeche | Coahuila
    | Colima | Chiapas | Chihuaha | DistritoFederal | Durango | Guanajuato
    | Guerrero | Hidalgo | Jalisco | Mexico | Michoacan | Morelos | Nayarit
    | NuevoLeon | Oaxaca | Puebla | Queretaro | QuintanaRoo | SanLuisPotosi
    | Sinaloa | Sonora | Tabasco | Tamaulipas | Tlaxcala | Veracruz | Yucatan
    | Zacatecas | NacidoExtranjero
  {
    /** `StateName`: the two-letter code the entity contributes. */
    function Code(): (code: string)
      ensures |code| == 2 && 'A' <= code[0] <= 'Z' && 'A' <= code[1] <= 'Z'
    {
      match this
      case Aguascalientes => "AS"
      case BajaCalifornia => "BC"
      case BajaCaliforniaSur => "BS"
      case Campeche => "CC"
      case Coahuila => "CL"
      case Colima => "CM"
      case Chiapas => "CS"
      case Chihuaha => "CH"
      case DistritoFederal => "DF"
      case Durango => "DG"
      case Guanajuato => "GT"
      case Guerrero => "GR"
      case Hidalgo => "HG"
      case Jalisco => "JC"
      case Mexico => "MC"
      case Michoacan => "MN"
      case Morelos => "MS"
      case Nayarit => "NT"
      case NuevoLeon => "NL"
      case Oaxaca => "OC"
      case Puebla => "PL"
      case Queretaro => "QT"
      case QuintanaRoo => "QR"
      case SanLuisPotosi => "SP"
      case Sinaloa => "SL"
      case Sonora => "SR"
      case Tabasco => "TC"
      case Tamaulipas => "TS"
      case Tlaxcala => "TL"
      case Veracruz => "VZ"
      case Yucatan => "YN"
      case Zacatecas => "ZS"
      case NacidoExtranjero => "NE"
    }
  }

  type Year = y: nat | 1 <= y <= 9999 witness 2000
  type Month = m: nat | 1 <= m <= 12 witness 1
  type Day = d: nat | 1 <= d <= 31 witness 1

  /** The parts of a `DateTime` the code reads. Whether the day exists in
      that month is not modelled. */
  datatype Date = Date(year: Year, month: Month, day: Day)

  function DigitChar(d: nat): (c: char)
    requires d < 10
    ensures '0' <= c <= '9'
  {
    ('0' as int + d) as char
  }

  /** A number below 100 written with two digits, zero-padded. */
  function TwoDigits(n: nat): (s: string)
    requires n < 100
    ensures |s| == 2 && '0' <= s[0] <= '9' && '0' <= s[1] <= '9'
  {
    [DigitChar(n / 10), DigitChar(n % 10)]
  }

  /** The value of a two-digit string. */
  function ValueOfTwoDigits(s: string): nat
    requires |s| == 2 && '0' <= s[0] <= '9' && '0' <= s[1] <= '9'
  {
    10 * (s[0] as int - '0' as int) + (s[1] as int - '0' as int)
  }

  lemma TwoDigitsRoundTrip(n: nat)
    requires n < 100
    ensures ValueOfTwoDigits(TwoDigits(n)) == n
  {
  }

  /** `ToString("yy") + ToString("MM") + ToString("dd")`: code positions 5 to 10. */
  function DateDigits(d: Date): (s: string)
    ensures |s| == 6 && forall i :: 0 <= i < 6 ==> '0' <= s[i] <= '9'
  {
    TwoDigits(d.year % 100) + TwoDigits(d.month) + TwoDigits(d.day)
  }

  /** The six digits give back the year modulo 100, the month and the day. */
  lemma DateDigitsRoundTrip(d: Date)
    ensures ValueOfTwoDigits(DateDigits(d)[0..2]) == d.year % 100
    ensures ValueOfTwoDigits(DateDigits(d)[2..4]) == d.month
    ensures ValueOfTwoDigits(DateDigits(d)[4..6]) == d.day
  {
    var s := DateDigits(d);
    assert s[0..2] == TwoDigits(d.year % 100);
    assert s[2..4] == TwoDigits(d.month);
    assert s[4..6] == TwoDigits(d.day);
    TwoDigitsRoundTrip(d.year % 100);
    TwoDigitsRoundTrip(d.month);
    TwoDigitsRoundTrip(d.day);
  }
}
