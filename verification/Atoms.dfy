/**
 Atoms as values: the isotope table (src/atom.c:41-61, 993-1012), the fields of
 knishio_atom_t, and JSON as a value tree.
 */
module Atoms {
  import opened Basics
  import opened Decimal
  import opened NumberPrinter

  datatype Isotope = UNKNOWN | V | C | M | U | I | R | T | L | S | F | B

  const ISOTOPES: seq<(Isotope, string)> :=
    [(V, "V"), (C, "C"), (M, "M"), (U, "U"), (I, "I"), (R, "R"),
     (T, "T"), (L, "L"), (S, "S"), (F, "F"), (B, "B")]

  /** knishio_isotope_to_string: the unknown isotope has no string. */
  function IsotopeText(isotope: Isotope): Text {
    match isotope
    case UNKNOWN => None
    case V => Some("V") case C => Some("C") case M => Some("M") case U => Some("U")
    case I => Some("I") case R => Some("R") case T => Some("T") case L => Some("L")
    case S => Some("S") case F => Some("F") case B => Some("B")
  }

  /** knishio_isotope_from_string: a scan of the table. */
  method IsotopeFromString(text: string) returns (isotope: Isotope)
    ensures isotope == IsotopeOf(text)
  {
    hide IsotopeOf;
    for i := 0 to |ISOTOPES|
      invariant forall j :: 0 <= j < i ==> ISOTOPES[j].1 != text
    {
      if text == ISOTOPES[i].1 {
        IsotopeAt(i);
        return ISOTOPES[i].0;
      }
    }
    NotAnIsotope(text);
    return UNKNOWN;
  }

  lemma {:induction false} IsotopeAt(i: nat)
    requires i < |ISOTOPES|
    ensures IsotopeOf(ISOTOPES[i].1) == ISOTOPES[i].0
  {
  }

  lemma {:induction false} NotAnIsotope(text: string)
    requires forall j :: 0 <= j < |ISOTOPES| ==> ISOTOPES[j].1 != text
    ensures IsotopeOf(text) == UNKNOWN
  {
    assert ISOTOPES[0].1 == "V" && ISOTOPES[1].1 == "C" && ISOTOPES[2].1 == "M" && ISOTOPES[3].1 == "U";
    assert ISOTOPES[4].1 == "I" && ISOTOPES[5].1 == "R" && ISOTOPES[6].1 == "T" && ISOTOPES[7].1 == "L";
    assert ISOTOPES[8].1 == "S" && ISOTOPES[9].1 == "F" && ISOTOPES[10].1 == "B";
  }

  function IsotopeOf(text: string): Isotope {
    if text == "V" then V else if text == "C" then C else if text == "M" then M
    else if text == "U" then U else if text == "I" then I else if text == "R" then R
    else if text == "T" then T else if text == "L" then L else if text == "S" then S
    else if text == "F" then F else if text == "B" then B else UNKNOWN
  }

  /** The two table directions invert each other on every known isotope. */
  lemma {:induction false} IsotopeRoundTrip(isotope: Isotope, text: string)
    ensures IsotopeText(isotope) == Some(text) <==> isotope != UNKNOWN && IsotopeOf(text) == isotope
  {
    if IsotopeOf(text) == isotope && isotope != UNKNOWN {
      assert IsotopeText(isotope) == Some(text);
    }
  }

  /** An entry of the meta pointer array. */
  datatype Meta = NullMeta | Meta(key: Text, value: Text)

  datatype AtomData = AtomData(
    position: Text,
    walletAddress: Text,
    isotope: Isotope,
    token: Text,
    value: Text,
    batchId: Text,
    metaType: Text,
    metaId: Text,
    meta: seq<Meta>,
    otsFragment: Text,
    index: int,
    version: Text,
    createdAt: int,
    createdAtMs: int)

  /** knishio_atom_created_at_ms. */
  function CreatedMs(a: AtomData): int {
    if a.createdAtMs > 0 then a.createdAtMs else a.createdAt * 1000
  }

  datatype Json =
    | JNull
    | JBool(value: bool)
    | JNum(number: Double)
    | JStr(text: string)
    | JArr(items: seq<Json>)
    | JObj(members: seq<(string, Json)>)

  /** cJSON_GetObjectItemCaseSensitive: the first member of that name. */
  function Lookup(members: seq<(string, Json)>, key: string): Option<Json> {
    if members == [] then None
    else if members[0].0 == key then Some(members[0].1)
    else Lookup(members[1..], key)
  }

  function Member(json: Json, key: string): Option<Json> {
    if json.JObj? then Lookup(json.members, key) else None
  }

  /** Leading members under other names do not matter; a leading one of that name is the answer. */
  lemma {:induction false} LookupSkips(front: seq<(string, Json)>, back: seq<(string, Json)>, key: string)
    requires forall i :: 0 <= i < |front| ==> front[i].0 != key
    ensures Lookup(front + back, key) == Lookup(back, key)
  {
    if front == [] {
      assert front + back == back;
    } else {
      LookupSkips(front[1..], back, key);
      assert (front + back)[1..] == front[1..] + back;
    }
  }

  /** A number of a %d field. */
  function DoubleOfInt(v: int): Double {
    if v == 0 then ZeroValue
    else
      var text := NatText(if v < 0 then -v else v);
      Finite(v < 0, Stripped(text), |text| - 1)
  }

  lemma {:induction false} StrippedTwice(digits: string)
    ensures Stripped(Stripped(digits)) == Stripped(digits)
  {
    if |digits| > 1 && digits[|digits| - 1] == '0' {
      StrippedTwice(digits[..|digits| - 1]);
    }
  }

  lemma {:induction false} DoubleOfIntReads(v: int)
    ensures !DoubleOfInt(v).NotFinite? && IntegerOf(NumberOf(DoubleOfInt(v))) == Some(v)
  {
    if v != 0 {
      var text := NatText(if v < 0 then -v else v);
      StrippedTwice(text);
      assert NumberOf(DoubleOfInt(v)) == NumberOfInt(v);
    }
    NumberOfIntRoundTrip(v);
  }
}
