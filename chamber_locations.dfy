/**
 * The two helpers of the chambers page: `parse_location`, which reads a
 * room (`chambre`) and a place (`emplacement`) into a room number, a shelf
 * and a position, and `count_series`, which counts the distinct
 * (strain code, batch lines) pairs of a table.
 */
module ChamberLocations {
  import opened Wrappers
  import opened Text

  /** The parsed location: `location_type` 'CHF', 'standard' or 'unknown' with its three fields. */
  datatype Location = ColdStorage | Standard(chambreNum: string, shelf: char, position: nat) | Unknown

  const ValidShelves: string := "ABCDEZ"

  predicate IsShelf(c: char) {
    c in ValidShelves
  }

  /** `str(x).strip().upper()` of a present cell; a missing cell stays missing. */
  function Normalize(raw: Option<string>): Option<string> {
    match raw
    case None => None
    case Some(s) => Some(Upper(Strip(s)))
  }

  /** A cell counts as true when present and non-empty. */
  predicate Truthy(v: Option<string>) {
    v.Some? && |v.value| > 0
  }

  /** The length of the run of digits `s` starts with. */
  function LeadingDigits(s: string): (n: nat)
    ensures n <= |s| && AllDigits(s[..n])
    ensures n < |s| ==> !IsDigit(s[n])
    decreases |s|
  {
    if s == [] || !IsDigit(s[0]) then 0
    else
      var n := 1 + LeadingDigits(s[1..]);
      assert s[..n] == [s[0]] + s[1..][..n - 1];
      n
  }

  /** `^(\d+)([ABCDEZ])(\d+)$`: the leading digits, the shelf letter and the trailing digits. */
  function MatchNumShelfPos(s: string): Option<(string, char, string)> {
    var n := LeadingDigits(s);
    if 0 < n && n + 1 < |s| && IsShelf(s[n]) && AllDigits(s[n + 1..]) then Some((s[..n], s[n], s[n + 1..]))
    else None
  }

  /** `^([ABCDEZ])(\d+)$`: the shelf letter and the digits after it. */
  function MatchShelfPos(s: string): Option<(char, string)> {
    if 2 <= |s| && IsShelf(s[0]) && AllDigits(s[1..]) then Some((s[0], s[1..])) else None
  }

  /** `^(\d+)([ABCDEZ])$`: the digits and the shelf letter that ends the string. */
  function MatchNumShelf(s: string): Option<(string, char)> {
    if 2 <= |s| && IsShelf(s[|s| - 1]) && AllDigits(s[..|s| - 1]) then Some((s[..|s| - 1], s[|s| - 1])) else None
  }

  predicate IsColdRoomName(ch: Option<string>) {
    Truthy(ch) && (Contains(ch.value, "CHF") || Contains(ch.value, "FROID"))
  }

  /** Case 1: the place alone holds room, shelf and position ("1A20"). */
  predicate Case1(em: Option<string>) {
    Truthy(em) && MatchNumShelfPos(em.value).Some?
  }

  /** Case 2: the place holds shelf and position ("A20") and the room is all digits. */
  predicate Case2(ch: Option<string>, em: Option<string>) {
    Truthy(em) && Truthy(ch) && MatchShelfPos(em.value).Some? && IsDigitString(ch.value)
  }

  /** Case 3: the room holds number and shelf ("1A") and the place is all digits. */
  predicate Case3(ch: Option<string>, em: Option<string>) {
    Truthy(ch) && MatchNumShelf(ch.value).Some? && Truthy(em) && IsDigitString(em.value)
  }

  /** Case 4: the room is all digits and the place holds shelf and position. */
  predicate Case4(ch: Option<string>, em: Option<string>) {
    Truthy(ch) && IsDigitString(ch.value) && Truthy(em) && MatchShelfPos(em.value).Some?
  }

  /** The result of cases 2 and 4, which compute it the same way: the room, the shelf and the position. */
  function RoomShelfPos(ch: Option<string>, em: Option<string>): Location {
    if ch.Some? && em.Some? && MatchShelfPos(em.value).Some? then
      var m := MatchShelfPos(em.value).value;
      Standard(ch.value, m.0, DigitsValue(m.1))
    else Unknown
  }

  /** `parse_location` on the normalised cells: the cold-room test, then the four cases in order, else unknown. */
  function ParseNormalized(ch: Option<string>, em: Option<string>): (l: Location)
    ensures l.ColdStorage? <==> IsColdRoomName(ch)
    ensures l.Standard? ==> !IsColdRoomName(ch) && (Case1(em) || Case2(ch, em) || Case3(ch, em))
  {
    if IsColdRoomName(ch) then ColdStorage
    else if Case1(em) then
      var m := MatchNumShelfPos(em.value).value;
      Standard(m.0, m.1, DigitsValue(m.2))
    else if Case2(ch, em) then RoomShelfPos(ch, em)
    else if Case3(ch, em) then
      var m := MatchNumShelf(ch.value).value;
      Standard(m.0, m.1, DigitsValue(em.value))
    else if Case4(ch, em) then RoomShelfPos(ch, em)
    else Unknown
  }

  /** `parse_location`: both cells normalised, then parsed. */
  function ParseLocation(chambre: Option<string>, emplacement: Option<string>): (l: Location)
    ensures l.ColdStorage? <==> IsColdRoomName(Normalize(chambre))
    ensures l.Standard? ==>
      Case1(Normalize(emplacement)) || Case2(Normalize(chambre), Normalize(emplacement)) ||
      Case3(Normalize(chambre), Normalize(emplacement))
  {
    ParseNormalized(Normalize(chambre), Normalize(emplacement))
  }

  /** A shelf letter is not a digit. */
  lemma ShelfIsNotDigit(c: char)
    requires IsShelf(c)
    ensures !IsDigit(c)
  {
  }

  /** The digits a string starts with, when a non-digit follows them, are exactly those digits. */
  lemma {:induction false} LeadingDigitsOf(d: string, rest: string)
    requires AllDigits(d)
    requires rest != [] && !IsDigit(rest[0])
    ensures LeadingDigits(d + rest) == |d|
    decreases |d|
  {
    if d != [] {
      var s := d + rest;
      assert s[0] == d[0] && IsDigit(d[0]);
      assert s[1..] == d[1..] + rest;
      assert AllDigits(d[1..]) by {
        forall i | 0 <= i < |d| - 1
          ensures IsDigit(d[1..][i])
        {
          assert d[1..][i] == d[i + 1];
        }
      }
      LeadingDigitsOf(d[1..], rest);
    } else {
      assert d + rest == rest;
    }
  }

  /** The first pattern matches exactly the strings digits, shelf letter, digits, and splits them there. */
  lemma MatchNumShelfPosIff(s: string, d1: string, c: char, d2: string)
    ensures MatchNumShelfPos(s) == Some((d1, c, d2)) <==>
      s == d1 + [c] + d2 && IsDigitString(d1) && IsShelf(c) && IsDigitString(d2)
  {
    if s == d1 + [c] + d2 && IsDigitString(d1) && IsShelf(c) && IsDigitString(d2) {
      LeadingDigitsOf(d1, [c] + d2);
      assert s[..|d1|] == d1 && s[|d1|] == c && s[|d1| + 1..] == d2;
    }
    if MatchNumShelfPos(s) == Some((d1, c, d2)) {
      var n := LeadingDigits(s);
      assert s == s[..n] + [s[n]] + s[n + 1..];
    }
  }

  /** The second pattern matches exactly a shelf letter followed by digits. */
  lemma MatchShelfPosIff(s: string, c: char, d: string)
    ensures MatchShelfPos(s) == Some((c, d)) <==> s == [c] + d && IsShelf(c) && IsDigitString(d)
  {
    if MatchShelfPos(s) == Some((c, d)) {
      assert s == [s[0]] + s[1..];
    }
  }

  /** The third pattern matches exactly digits followed by a shelf letter. */
  lemma MatchNumShelfIff(s: string, d: string, c: char)
    ensures MatchNumShelf(s) == Some((d, c)) <==> s == d + [c] && IsDigitString(d) && IsShelf(c)
  {
    if MatchNumShelf(s) == Some((d, c)) {
      assert s == s[..|s| - 1] + [s[|s| - 1]];
    }
  }

  /** Case 4 asks for exactly what case 2 asks for, so it is never the case that decides. */
  lemma Case4IsCase2(ch: Option<string>, em: Option<string>)
    ensures Case4(ch, em) <==> Case2(ch, em)
  {
  }

  /** A room name that is cold storage yields 'CHF' whatever the place. */
  lemma ColdRoomWins(chambre: Option<string>, emplacement: Option<string>)
    requires IsColdRoomName(Normalize(chambre))
    ensures ParseLocation(chambre, emplacement) == ColdStorage
  {
  }

  /** A string with at most one non-digit, at its end, does not contain a word of two or more letters. */
  lemma {:induction false} NoWordInNumber(s: string, w: string)
    requires forall i | 0 <= i < |s| - 1 :: IsDigit(s[i])
    requires |w| >= 2 && !IsDigit(w[0])
    ensures !Contains(s, w)
  {
    ContainsIff(s, w);
    forall i: nat
      ensures !OccursAt(s, w, i)
    {
      if i + |w| <= |s| {
        assert s[i..i + |w|][0] == s[i];
        assert IsDigit(s[i]);
      }
    }
  }

  lemma NotColdIfNumbered(ch: Option<string>)
    requires ch.Some? && forall i | 0 <= i < |ch.value| - 1 :: IsDigit(ch.value[i])
    ensures !IsColdRoomName(ch)
  {
    NoWordInNumber(ch.value, "CHF");
    NoWordInNumber(ch.value, "FROID");
  }

  /** Normalising a string without white space or lower-case letters leaves it as it is. */
  lemma NormalizeKeeps(s: string)
    requires forall i | 0 <= i < |s| :: !IsSpace(s[i]) && !('a' <= s[i] <= 'z')
    ensures Normalize(Some(s)) == Some(s)
  {
    assert TrimStart(s) == s;
    assert TrimEnd(s) == s;
    assert Upper(s) == s;
  }

  lemma DigitsAndShelvesKept(s: string)
    requires forall i | 0 <= i < |s| :: IsDigit(s[i]) || IsShelf(s[i])
    ensures Normalize(Some(s)) == Some(s)
  {
    NormalizeKeeps(s);
  }

  /**
   * Case 1: a place `<digits><shelf><digits>` in a room that is not cold
   * storage gives the leading digits, the shelf and the trailing number.
   */
  lemma Case1Parse(chambre: Option<string>, emplacement: Option<string>, d1: string, c: char, d2: string)
    requires !IsColdRoomName(Normalize(chambre))
    requires Normalize(emplacement) == Some(d1 + [c] + d2)
    requires IsDigitString(d1) && IsShelf(c) && IsDigitString(d2)
    ensures ParseLocation(chambre, emplacement) == Standard(d1, c, DigitsValue(d2))
  {
    MatchNumShelfPosIff(d1 + [c] + d2, d1, c, d2);
  }

  /** Case 2: a place `<shelf><digits>` with an all-digit room gives the room, the shelf and the number. */
  lemma Case2Parse(chambre: Option<string>, emplacement: Option<string>, c: char, d: string)
    requires Normalize(emplacement) == Some([c] + d)
    requires IsShelf(c) && IsDigitString(d)
    requires Truthy(Normalize(chambre)) && IsDigitString(Normalize(chambre).value)
    ensures ParseLocation(chambre, emplacement) == Standard(Normalize(chambre).value, c, DigitsValue(d))
  {
    Case2Normalized(Normalize(chambre), Normalize(emplacement), c, d);
  }

  lemma Case2Normalized(ch: Option<string>, em: Option<string>, c: char, d: string)
    requires em == Some([c] + d)
    requires IsShelf(c) && IsDigitString(d)
    requires Truthy(ch) && IsDigitString(ch.value)
    ensures ParseNormalized(ch, em) == Standard(ch.value, c, DigitsValue(d))
  {
    NotColdIfNumbered(ch);
    ShelfIsNotDigit(c);
    assert ([c] + d)[0] == c;
    assert LeadingDigits([c] + d) == 0;
    assert !Case1(em);
    MatchShelfPosIff([c] + d, c, d);
    assert Case2(ch, em);
    assert RoomShelfPos(ch, em) == Standard(ch.value, c, DigitsValue(d));
  }

  /** Case 3: a room `<digits><shelf>` with an all-digit place gives the room digits, the shelf and the place's number. */
  lemma Case3Parse(chambre: Option<string>, emplacement: Option<string>, d: string, c: char)
    requires Normalize(chambre) == Some(d + [c])
    requires IsDigitString(d) && IsShelf(c)
    requires Truthy(Normalize(emplacement)) && IsDigitString(Normalize(emplacement).value)
    ensures ParseLocation(chambre, emplacement) == Standard(d, c, DigitsValue(Normalize(emplacement).value))
  {
    Case3Normalized(Normalize(chambre), Normalize(emplacement), d, c);
  }

  lemma Case3Normalized(ch: Option<string>, em: Option<string>, d: string, c: char)
    requires ch == Some(d + [c])
    requires IsDigitString(d) && IsShelf(c)
    requires Truthy(em) && IsDigitString(em.value)
    ensures ParseNormalized(ch, em) == Standard(d, c, DigitsValue(em.value))
  {
    var e := em.value;
    assert (d + [c])[|d + [c]| - 1] == c;
    NotColdIfNumbered(ch);
    MatchNumShelfIff(d + [c], d, c);
    assert LeadingDigits(e) == |e|;
    assert !Case1(em);
    assert IsDigit(e[0]);
    assert !IsShelf(e[0]);
    assert !Case2(ch, em);
  }

  /**
   * Every standard result has an all-digit room number, a shelf from
   * ABCDEZ and a position read from digits of the input.
   */
  lemma StandardIsWellFormed(chambre: Option<string>, emplacement: Option<string>)
    requires ParseLocation(chambre, emplacement).Standard?
    ensures var l := ParseLocation(chambre, emplacement);
      IsDigitString(l.chambreNum) && IsShelf(l.shelf)
  {
    StandardFromCases(Normalize(chambre), Normalize(emplacement));
  }

  lemma StandardFromCases(ch: Option<string>, em: Option<string>)
    requires ParseNormalized(ch, em).Standard?
    ensures var l := ParseNormalized(ch, em);
      IsDigitString(l.chambreNum) && IsShelf(l.shelf)
  {
    if Case1(em) {
      var n := LeadingDigits(em.value);
      assert IsDigitString(em.value[..n]);
    } else if Case2(ch, em) {
      assert RoomShelfPos(ch, em).chambreNum == ch.value;
    } else if Case3(ch, em) {
      var s := ch.value;
      assert IsDigitString(s[..|s| - 1]);
    }
  }

  /** With no usable place and a room that is not cold storage, the location is unknown whatever the room holds. */
  lemma NoPlaceIsUnknown(chambre: Option<string>, emplacement: Option<string>)
    requires !Truthy(Normalize(emplacement))
    requires !IsColdRoomName(Normalize(chambre))
    ensures ParseLocation(chambre, emplacement) == Unknown
  {
  }

  /**
   * A place `<digits><letter><digits>` whose letter is not a shelf of
   * ABCDEZ matches no case, so outside a cold room the location is unknown,
   * whatever the room.
   */
  lemma BadShelfIsUnknown(chambre: Option<string>, emplacement: Option<string>, d1: string, c: char, d2: string)
    requires !IsColdRoomName(Normalize(chambre))
    requires Normalize(emplacement) == Some(d1 + [c] + d2)
    requires IsDigitString(d1) && IsDigitString(d2) && !IsDigit(c) && !IsShelf(c)
    ensures ParseLocation(chambre, emplacement) == Unknown
  {
    BadShelfNormalized(Normalize(chambre), Normalize(emplacement), d1, c, d2);
  }

  lemma BadShelfNormalized(ch: Option<string>, em: Option<string>, d1: string, c: char, d2: string)
    requires !IsColdRoomName(ch)
    requires em == Some(d1 + [c] + d2)
    requires IsDigitString(d1) && IsDigitString(d2) && !IsDigit(c) && !IsShelf(c)
    ensures ParseNormalized(ch, em) == Unknown
  {
    var s := d1 + [c] + d2;
    LeadingDigitsOf(d1, [c] + d2);
    assert s == d1 + ([c] + d2);
    assert s[|d1|] == c;
    assert !Case1(em);
    assert s[0] == d1[0];
    assert IsDigit(d1[0]) && !IsShelf(d1[0]);
    assert !Case2(ch, em);
    assert !IsDigit(s[|d1|]);
    assert !AllDigits(s);
    assert !Case3(ch, em);
  }

  /** Writing a room number, a shelf and a position as "1A20" and parsing it gives them back. */
  lemma PlaceRoundTrip(chambre: Option<string>, room: nat, c: char, pos: nat)
    requires !IsColdRoomName(Normalize(chambre))
    requires IsShelf(c)
    ensures ParseLocation(chambre, Some(NatToString(room) + [c] + NatToString(pos))) ==
      Standard(NatToString(room), c, pos)
  {
    var a := NatToString(room);
    var b := NatToString(pos);
    var s := a + [c] + b;
    forall i | 0 <= i < |s|
      ensures IsDigit(s[i]) || IsShelf(s[i])
    {
      if i < |a| {
        assert s[i] == a[i];
      } else if i > |a| {
        assert s[i] == b[i - |a| - 1];
      }
    }
    DigitsAndShelvesKept(s);
    NatToStringRoundTrip(pos);
    Case1Parse(chambre, Some(s), NatToString(room), c, NatToString(pos));
  }

  /** Writing a room as "1" and the place as "A20" and parsing them gives them back. */
  lemma RoomAndPlaceRoundTrip(room: nat, c: char, pos: nat)
    requires IsShelf(c)
    ensures ParseLocation(Some(NatToString(room)), Some([c] + NatToString(pos))) ==
      Standard(NatToString(room), c, pos)
  {
    var a := NatToString(room);
    var b := NatToString(pos);
    RoomKept(a);
    PlaceKept(c, b);
    NatToStringRoundTrip(pos);
    Case2Normalized(Some(a), Some([c] + b), c, b);
    assert ParseLocation(Some(a), Some([c] + b)) == ParseNormalized(Some(a), Some([c] + b));
  }

  /** A room written in digits is unchanged by normalisation. */
  lemma RoomKept(a: string)
    requires AllDigits(a)
    ensures Normalize(Some(a)) == Some(a)
  {
    DigitsAndShelvesKept(a);
  }

  /** A place written as a shelf letter and digits is unchanged by normalisation. */
  lemma PlaceKept(c: char, b: string)
    requires IsShelf(c) && AllDigits(b)
    ensures Normalize(Some([c] + b)) == Some([c] + b)
  {
    var e := [c] + b;
    forall i | 0 <= i < |e|
      ensures IsDigit(e[i]) || IsShelf(e[i])
    {
      if i > 0 {
        assert e[i] == b[i - 1];
      }
    }
    DigitsAndShelvesKept(e);
  }

  /** One row's series key: its strain code and its batch lines, either possibly missing. */
  datatype SeriesKey = SeriesKey(strainCode: Option<string>, batchLines: Option<string>)

  /** `count_series`: the number of distinct keys, and 0 for an empty table. */
  function CountSeries(rows: seq<SeriesKey>): (n: nat)
    ensures n == 0 <==> |rows| == 0
  {
    if |rows| == 0 then 0
    else
      var keys := set k | k in rows;
      assert rows[0] in keys;
      assert |keys| >= |{rows[0]}| by {
        assert {rows[0]} <= keys;
      }
      |keys|
  }

  lemma {:induction false} KeySetAppend(rows: seq<SeriesKey>, k: SeriesKey)
    ensures (set x | x in rows + [k]) == (set x | x in rows) + {k}
  {
  }

  /** Adding a row adds one series exactly when its key is new. */
  lemma CountSeriesAppend(rows: seq<SeriesKey>, k: SeriesKey)
    ensures CountSeries(rows + [k]) == CountSeries(rows) + if k in rows then 0 else 1
  {
    KeySetAppend(rows, k);
    if rows == [] {
      assert (set x | x in rows) == {};
    }
  }

  /** There are at most as many series as rows, and at least one when there is a row. */
  lemma {:induction false} CountSeriesBounds(rows: seq<SeriesKey>)
    ensures CountSeries(rows) <= |rows|
    ensures |rows| > 0 ==> CountSeries(rows) >= 1
    decreases |rows|
  {
    if rows != [] {
      var init := rows[..|rows| - 1];
      CountSeriesBounds(init);
      assert rows == init + [rows[|rows| - 1]];
      CountSeriesAppend(init, rows[|rows| - 1]);
    }
  }

  /** The count does not depend on the order or repetition of the rows, only on which keys occur. */
  lemma CountSeriesOfSameKeys(a: seq<SeriesKey>, b: seq<SeriesKey>)
    requires forall k :: k in a <==> k in b
    ensures CountSeries(a) == CountSeries(b)
  {
    assert (set x | x in a) == (set x | x in b);
    if |a| > 0 {
      assert a[0] in b;
    }
    if |b| > 0 {
      assert b[0] in a;
    }
  }
}
