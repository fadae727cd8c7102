/**
 * `extract_date_from_barcode`: the planting date hidden in a barcode as a
 * run of eight digits `YYYYMMDD`. Whether a year, month and day form a date
 * (the job of `pd.to_datetime`) is left to a predicate `isDate` supplied by
 * the caller. Two versions are given: the search as written, which takes the
 * first eight digits in a row whatever they say, and a corrected search that
 * takes the first eight-digit window that is a date, which is what the
 * documented example needs.
 */
module BarcodeDate {
  import opened Wrappers
  import opened Text

  datatype Date = Date(year: nat, month: nat, day: nat)

  const WindowLength: nat := 8

  /** Eight digits in a row start at `i`. */
  predicate DigitWindowAt(s: string, i: nat) {
    i + WindowLength <= |s| && AllDigits(s[i..i + WindowLength])
  }

  /** `YYYYMMDD` read as a year, a month and a day. */
  function ParseWindow(w: string): (d: Date)
    requires |w| == WindowLength && AllDigits(w)
    ensures d.year < 10000 && d.month < 100 && d.day < 100
  {
    DigitsBound(w[..4]);
    DigitsBound(w[4..6]);
    DigitsBound(w[6..]);
    Date(DigitsValue(w[..4]), DigitsValue(w[4..6]), DigitsValue(w[6..]))
  }

  function Pow10(n: nat): nat {
    if n == 0 then 1 else 10 * Pow10(n - 1)
  }

  /** `n` decimal digits hold less than `10^n`. */
  lemma {:induction false} DigitsBound(s: string)
    requires AllDigits(s)
    ensures DigitsValue(s) < Pow10(|s|)
    decreases |s|
  {
    if s != [] {
      DigitsBound(s[..|s| - 1]);
    }
  }

  lemma TwoDigitsValue(m: string)
    requires |m| == 2 && AllDigits(m)
    ensures DigitsValue(m) == 10 * DigitValue(m[0]) + DigitValue(m[1])
  {
    var h := m[..1];
    assert h[..0] == [] && h[0] == m[0];
    assert DigitsValue(h) == DigitValue(m[0]);
    assert DigitsValue(m) == DigitsValue(h) * 10 + DigitValue(m[1]);
  }

  lemma FourDigitsValue(y: string)
    requires |y| == 4 && AllDigits(y)
    ensures DigitsValue(y) == 1000 * DigitValue(y[0]) + 100 * DigitValue(y[1]) + 10 * DigitValue(y[2]) + DigitValue(y[3])
  {
    assert y[..3][..2] == y[..2];
    TwoDigitsValue(y[..2]);
  }

  /** The year, month and day of a window, digit by digit. */
  lemma WindowFields(w: string)
    requires |w| == WindowLength && AllDigits(w)
    ensures ParseWindow(w) == Date(
      1000 * DigitValue(w[0]) + 100 * DigitValue(w[1]) + 10 * DigitValue(w[2]) + DigitValue(w[3]),
      10 * DigitValue(w[4]) + DigitValue(w[5]),
      10 * DigitValue(w[6]) + DigitValue(w[7]))
  {
    FourDigitsValue(w[..4]);
    TwoDigitsValue(w[4..6]);
    TwoDigitsValue(w[6..]);
  }

  /** The window at `j` is eight digits and passes `ok`. */
  predicate Accepted(s: string, ok: string -> bool, j: nat) {
    DigitWindowAt(s, j) && ok(s[j..j + WindowLength])
  }

  function FirstAcceptedFrom(s: string, ok: string -> bool, from: nat): (i: Option<nat>)
    requires forall j: nat | j < from :: !Accepted(s, ok, j)
    ensures i.Some? ==> Accepted(s, ok, i.value) && forall j: nat | j < i.value :: !Accepted(s, ok, j)
    ensures i.None? ==> forall j: nat :: !Accepted(s, ok, j)
    decreases |s| - from
  {
    if from + WindowLength > |s| then None
    else if Accepted(s, ok, from) then Some(from)
    else FirstAcceptedFrom(s, ok, from + 1)
  }

  /** The leftmost eight-digit window that passes `ok`. */
  function FirstAccepted(s: string, ok: string -> bool): (i: Option<nat>)
    ensures i.Some? ==> Accepted(s, ok, i.value) && forall j: nat | j < i.value :: !Accepted(s, ok, j)
    ensures i.None? ==> forall j: nat :: !Accepted(s, ok, j)
  {
    FirstAcceptedFrom(s, ok, 0)
  }

  /** Any eight digits in a row: what `re.search(r'(\d{8})', ...)` looks for. */
  function AnyDigits(w: string): bool {
    true
  }

  /** Eight digits in a row that read as a date. */
  function IsDateWindow(isDate: Date -> bool, w: string): bool {
    |w| == WindowLength && AllDigits(w) && isDate(ParseWindow(w))
  }

  /** As written: the first eight digits in a row, kept only if they read as a date. A missing barcode gives none. */
  function ExtractDate(barcode: Option<string>, isDate: Date -> bool): (r: Option<Date>)
    ensures barcode.None? ==> r.None?
    ensures r.Some? ==> isDate(r.value)
    ensures r.Some? ==> r.value.year < 10000 && r.value.month < 100 && r.value.day < 100
  {
    match barcode
    case None => None
    case Some(s) =>
      match FirstAccepted(s, AnyDigits)
      case None => None
      case Some(i) =>
        var d := ParseWindow(s[i..i + WindowLength]);
        if isDate(d) then Some(d) else None
  }

  /** Corrected: the first eight digits in a row that read as a date. */
  function ExtractDateCorrected(barcode: Option<string>, isDate: Date -> bool): (r: Option<Date>)
    ensures barcode.None? ==> r.None?
    ensures r.Some? ==> isDate(r.value)
    ensures r.Some? ==> r.value.year < 10000 && r.value.month < 100 && r.value.day < 100
  {
    match barcode
    case None => None
    case Some(s) =>
      match FirstAccepted(s, w => IsDateWindow(isDate, w))
      case None => None
      case Some(i) => Some(ParseWindow(s[i..i + WindowLength]))
  }

  /**
   * As written, a date comes only from the leftmost run of eight digits; if
   * that run is not a date, nothing is returned even when a later run is.
   */
  lemma ExtractDateLeftmost(s: string, isDate: Date -> bool)
    ensures ExtractDate(Some(s), isDate).Some? <==>
      exists i: nat :: DigitWindowAt(s, i) && (forall j: nat | j < i :: !DigitWindowAt(s, j)) &&
        isDate(ParseWindow(s[i..i + WindowLength]))
    ensures forall i: nat | DigitWindowAt(s, i) && (forall j: nat | j < i :: !DigitWindowAt(s, j)) ::
      ExtractDate(Some(s), isDate) == if isDate(ParseWindow(s[i..i + WindowLength])) then Some(ParseWindow(s[i..i + WindowLength])) else None
  {
    var f := FirstAccepted(s, AnyDigits);
    assert forall j: nat :: Accepted(s, AnyDigits, j) <==> DigitWindowAt(s, j);
    if f.Some? {
      var i := f.value;
      forall i': nat | DigitWindowAt(s, i') && (forall j: nat | j < i' :: !DigitWindowAt(s, j))
        ensures i' == i
      {
        assert Accepted(s, AnyDigits, i');
        assert DigitWindowAt(s, i);
      }
    }
  }

  /**
   * Corrected: the result is a date read from some eight digits in a row,
   * no earlier such window is a date, and there is no result only when no
   * window at all is a date.
   */
  lemma ExtractDateCorrectedSpec(s: string, isDate: Date -> bool)
    ensures var r := ExtractDateCorrected(Some(s), isDate);
      && (r.Some? ==>
            && isDate(r.value)
            && exists i: nat :: DigitWindowAt(s, i) && ParseWindow(s[i..i + WindowLength]) == r.value &&
                 forall j: nat | j < i && DigitWindowAt(s, j) :: !isDate(ParseWindow(s[j..j + WindowLength])))
      && (r.None? <==> forall j: nat | DigitWindowAt(s, j) :: !isDate(ParseWindow(s[j..j + WindowLength])))
  {
    var ok := w => IsDateWindow(isDate, w);
    var f := FirstAccepted(s, ok);
    assert forall j: nat :: Accepted(s, ok, j) <==> DigitWindowAt(s, j) && isDate(ParseWindow(s[j..j + WindowLength]));
    if f.Some? {
      var i := f.value;
      assert DigitWindowAt(s, i) && ParseWindow(s[i..i + WindowLength]) == ExtractDateCorrected(Some(s), isDate).value;
    }
  }

  /** The two versions agree whenever the first eight digits in a row are a date. */
  lemma {:induction false} VersionsAgree(s: string, isDate: Date -> bool, i: nat)
    requires DigitWindowAt(s, i) && forall j: nat | j < i :: !DigitWindowAt(s, j)
    requires isDate(ParseWindow(s[i..i + WindowLength]))
    ensures ExtractDate(Some(s), isDate) == ExtractDateCorrected(Some(s), isDate) == Some(ParseWindow(s[i..i + WindowLength]))
  {
    ExtractDateLeftmost(s, isDate);
    ExtractDateCorrectedSpec(s, isDate);
    var ok := w => IsDateWindow(isDate, w);
    var f := FirstAccepted(s, ok);
    assert Accepted(s, ok, i);
    assert f.Some?;
    assert DigitWindowAt(s, f.value);
  }

  /** A calendar never has a month above 12 or a day above 31. */
  ghost predicate CalendarBounded(isDate: Date -> bool) {
    forall d :: isDate(d) ==> 1 <= d.month <= 12 && 1 <= d.day <= 31
  }

  const DocumentedBarcode: string := "735820250912AW2"

  /**
   * The documented example `735820250912AW2` is read, as written, from its
   * first eight digits `73582025` (month 20), so no date comes out of it.
   */
  lemma DocumentedExampleAsWritten(isDate: Date -> bool)
    requires CalendarBounded(isDate)
    ensures ExtractDate(Some(DocumentedBarcode), isDate) == None
  {
    var s := DocumentedBarcode;
    assert DigitWindowAt(s, 0);
    WindowFields(s[0..8]);
    ExtractDateLeftmost(s, isDate);
  }

  /** The first five eight-digit windows of the documented example are all digits. */
  lemma DocumentedDigits()
    ensures forall j: nat | j <= 4 :: DigitWindowAt(DocumentedBarcode, j)
  {
    var s := DocumentedBarcode;
    assert s[..12] == "735820250912";
    assert AllDigits(s[..12]);
    forall j: nat | j <= 4
      ensures DigitWindowAt(s, j)
    {
      assert s[j..j + WindowLength] == s[..12][j..j + WindowLength];
    }
  }

  /** What the first five eight-digit windows of the documented example read as. */
  lemma DocumentedWindows()
    ensures forall j: nat | j <= 4 :: DigitWindowAt(DocumentedBarcode, j)
    ensures var s := DocumentedBarcode;
      && ParseWindow(s[0..8]).month == 20
      && ParseWindow(s[1..9]).day == 50
      && ParseWindow(s[2..10]).month == 25
      && ParseWindow(s[3..11]).month == 50
      && ParseWindow(s[4..12]) == Date(2025, 9, 12)
  {
    var s := DocumentedBarcode;
    DocumentedDigits();
    WindowFields(s[0..8]);
    WindowFields(s[1..9]);
    WindowFields(s[2..10]);
    WindowFields(s[3..11]);
    WindowFields(s[4..12]);
  }

  /** The corrected search reads 2025-09-12 from the documented example, as documented. */
  lemma DocumentedExampleCorrected(isDate: Date -> bool)
    requires CalendarBounded(isDate)
    requires isDate(Date(2025, 9, 12))
    ensures ExtractDateCorrected(Some(DocumentedBarcode), isDate) == Some(Date(2025, 9, 12))
  {
    var s := DocumentedBarcode;
    var ok := w => IsDateWindow(isDate, w);
    DocumentedWindows();
    assert Accepted(s, ok, 4);
    assert !Accepted(s, ok, 0) && !Accepted(s, ok, 1) && !Accepted(s, ok, 2) && !Accepted(s, ok, 3);
  }
}
