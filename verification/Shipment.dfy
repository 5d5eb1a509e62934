/** The canonical shipment record, what one email states about it, and the merge of the two. */
module Shipment {
  import opened Prelude
  import Calendar

  // ----- fields and values --------------------------------------------------

  datatype FieldName =
    | Origin | Destination | WeightKg | DimensionsIn | Commodity | CargoType
    | IsChemical | MsdsAttached | Pcs | DeliveryType | DeliveryAddress | ShipDate

  /** Canonical field order. */
  const FIELDS: seq<FieldName> :=
    [Origin, Destination, WeightKg, DimensionsIn, Commodity, CargoType,
     IsChemical, MsdsAttached, Pcs, DeliveryType, DeliveryAddress, ShipDate]

  function Position(f: FieldName): (i: nat)
    ensures i < |FIELDS| && FIELDS[i] == f
  {
    match f
    case Origin => 0
    case Destination => 1
    case WeightKg => 2
    case DimensionsIn => 3
    case Commodity => 4
    case CargoType => 5
    case IsChemical => 6
    case MsdsAttached => 7
    case Pcs => 8
    case DeliveryType => 9
    case DeliveryAddress => 10
    case ShipDate => 11
  }

  lemma FieldsAreListedOnce(i: nat)
    requires i < |FIELDS|
    ensures Position(FIELDS[i]) == i
  {
    assert i == 0 || i == 1 || i == 2 || i == 3 || i == 4 || i == 5
           || i == 6 || i == 7 || i == 8 || i == 9 || i == 10 || i == 11;
  }

  lemma EveryFieldIsListed()
    ensures forall f: FieldName :: f in FIELDS
  {
    forall f: FieldName ensures f in FIELDS {
      assert FIELDS[Position(f)] == f;
    }
  }

  datatype DeliveryKind = Door | Airport

  datatype Value =
    | Text(text: string)
    | Number(number: real)
    | Sides(length: real, width: real, height: real)
    | Flag(flag: bool)
    | Count(count: int)
    | Delivery(kind: DeliveryKind)
    | OnDay(day: Calendar.Day)

  /** The declared type of each field. */
  predicate Fits(f: FieldName, v: Value) {
    match f
    case WeightKg => v.Number?
    case DimensionsIn => v.Sides? && v.length > 0.0 && v.width > 0.0 && v.height > 0.0
    case IsChemical => v.Flag?
    case MsdsAttached => v.Flag?
    case Pcs => v.Count?
    case DeliveryType => v.Delivery?
    case ShipDate => v.OnDay?
    case _ => v.Text?
  }

  ghost predicate WellTyped(m: map<FieldName, Value>) {
    forall f :: f in m ==> Fits(f, m[f])
  }

  /** A record, or the fields one email states: a field that is `None` is absent. */
  type Fields = m: map<FieldName, Value> | WellTyped(m) witness map[]

  // ----- what the model may report ------------------------------------------

  /** One field's extraction. Only a stated field carries a value. */
  datatype Reading = Stated(value: Value) | NotStated | Denied | Ambiguous | Invalid

  /** The extraction contract: stated values have their field's type, and a stated weight or
      piece count is positive. A field the map does not mention is not stated. */
  ghost predicate Contract(x: map<FieldName, Reading>) {
    forall f :: f in x && x[f].Stated? ==> Fits(f, x[f].value) && Possible(f, x[f].value)
  }

  predicate Possible(f: FieldName, v: Value) {
    && (f.WeightKg? && v.Number? ==> v.number > 0.0)
    && (f.Pcs? && v.Count? ==> v.count > 0)
  }

  type Extraction = x: map<FieldName, Reading> | Contract(x) witness map[]

  function StatusOf(x: Extraction, f: FieldName): Reading {
    if f in x then x[f] else NotStated
  }

  predicate AnyStated(x: Extraction) {
    exists f :: f in x && x[f].Stated?
  }

  predicate AnyInvalid(x: Extraction) {
    exists f :: f in x && x[f].Invalid?
  }

  /** Only a stated shipment date that has passed is changed: it is rolled forward. */
  function ResolveShipDate(x: Extraction, today: Calendar.Day): (r: Extraction)
    ensures forall f :: f != ShipDate ==> StatusOf(r, f) == StatusOf(x, f)
    ensures StatusOf(r, ShipDate).Stated? <==> StatusOf(x, ShipDate).Stated?
    ensures !StatusOf(x, ShipDate).Stated? ==> r == x
    ensures forall day :: StatusOf(x, ShipDate) == Stated(OnDay(day)) ==>
              StatusOf(r, ShipDate) == Stated(OnDay(Calendar.Rolled(day, today)))
  {
    if ShipDate in x && x[ShipDate].Stated? then
      var stated := x[ShipDate].value;
      assert Fits(ShipDate, stated);
      x[ShipDate := Stated(OnDay(Calendar.Rolled(stated.day, today)))]
    else x
  }

  /** Narrowing to the canonical shape: stated values only, except that a denied MSDS is the
      answer "no". */
  function ToExtractedFields(x: Extraction): (r: Fields)
    ensures forall f :: f in r <==> StatusOf(x, f).Stated? || (f == MsdsAttached && StatusOf(x, f).Denied?)
    ensures forall f :: f in r && StatusOf(x, f).Stated? ==> r[f] == StatusOf(x, f).value
    ensures StatusOf(x, MsdsAttached).Denied? ==> r[MsdsAttached] == Flag(false)
  {
    var values := map f | f in x && x[f].Stated? :: x[f].value;
    if StatusOf(x, MsdsAttached).Denied? then values[MsdsAttached := Flag(false)] else values
  }

  // ----- free text ----------------------------------------------------------

  /** What Python's `str.isspace` says, over all of Unicode. */
  predicate IsSpace(c: char) {
    var n := c as int;
    0x09 <= n <= 0x0D || 0x1C <= n <= 0x20 || n == 0x85 || n == 0xA0 || n == 0x1680 || 0x2000 <= n <= 0x200A
    || n == 0x2028 || n == 0x2029 || n == 0x202F || n == 0x205F || n == 0x3000
  }

  ghost predicate IsWord(w: string) {
    w != "" && forall c :: c in w ==> !IsSpace(c)
  }

  /** `str.split()`. */
  function Words(s: string): (ws: seq<string>)
    ensures s != "" && !IsSpace(s[0]) ==> ws != []
    ensures forall w :: w in ws ==> IsWord(w)
  {
    if s == "" then []
    else if IsSpace(s[0]) then Words(s[1..])
    else if |s| == 1 || IsSpace(s[1]) then [[s[0]]] + Words(s[1..])
    else
      var ws := Words(s[1..]);
      assert IsWord([s[0]] + ws[0]) by { assert ws[0] in ws; }
      [[s[0]] + ws[0]] + ws[1..]
  }

  /** `" ".join(...)`. */
  function Join(ws: seq<string>): string {
    if ws == [] then ""
    else if |ws| == 1 then ws[0]
    else ws[0] + " " + Join(ws[1..])
  }

  /** Whitespace runs become one space and the ends are trimmed. */
  function Clean(s: string): string {
    Join(Words(s))
  }

  function LowerChar(c: char): char {
    if 'A' <= c <= 'Z' then (c as int + 32) as char else c
  }

  function Lower(s: string): (r: string)
    ensures |r| == |s| && forall i :: 0 <= i < |s| ==> r[i] == LowerChar(s[i])
  {
    if s == "" then "" else [LowerChar(s[0])] + Lower(s[1..])
  }

  /** `_same_value`: text up to case and whitespace, everything else exactly. */
  predicate SameValue(a: Value, b: Value) {
    if a.Text? && b.Text? then Clean(Lower(a.text)) == Clean(Lower(b.text)) else a == b
  }

  lemma {:induction false} WordsOfWordThen(w: string, rest: string)
    requires IsWord(w) && (rest == "" || IsSpace(rest[0]))
    ensures Words(w + rest) == [w] + Words(rest)
  {
    var s := w + rest;
    assert w[0] in w;
    if |w| == 1 {
      assert s[1..] == rest;
      assert rest != "" ==> s[1] == rest[0];
      assert w == [s[0]];
    } else {
      assert s[1..] == w[1..] + rest;
      assert s[1] == w[1] && w[1] in w;
      WordsOfWordThen(w[1..], rest);
      assert [s[0]] + w[1..] == w;
    }
  }

  lemma {:induction false} WordsOfJoin(ws: seq<string>)
    requires forall w :: w in ws ==> IsWord(w)
    ensures Words(Join(ws)) == ws
  {
    if ws == [] {
    } else if |ws| == 1 {
      WordsOfWordThen(ws[0], "");
      assert ws[0] + "" == ws[0];
      assert ws == [ws[0]];
    } else {
      var rest := " " + Join(ws[1..]);
      WordsOfWordThen(ws[0], rest);
      assert ws[0] + " " + Join(ws[1..]) == ws[0] + rest;
      assert rest[1..] == Join(ws[1..]);
      WordsOfJoin(ws[1..]);
      assert ws == [ws[0]] + ws[1..];
    }
  }

  /** Cleaning twice is cleaning once, and what is left is not blank unless it is empty. */
  lemma CleanIsIdempotent(s: string)
    ensures Clean(Clean(s)) == Clean(s)
    ensures Clean(s) == "" <==> Words(s) == []
  {
    WordsOfJoin(Words(s));
  }

  /** Lower-casing each word. */
  ghost function LowerAll(ws: seq<string>): (r: seq<string>)
    ensures |r| == |ws|
  {
    if ws == [] then [] else [Lower(ws[0])] + LowerAll(ws[1..])
  }

  /** Cleaned text that is not empty is not blank either. */
  lemma CleanIsNeverBlank(s: string)
    requires Clean(s) != ""
    ensures exists c :: c in Clean(s) && !IsSpace(c)
  {
    var ws := Words(s);
    assert ws != [] && ws[0] in ws;
    assert Clean(s)[0] == ws[0][0] && ws[0][0] in ws[0];
    assert Clean(s)[0] in Clean(s);
  }

  lemma {:induction false} WordsOfLower(s: string)
    ensures Words(Lower(s)) == LowerAll(Words(s))
  {
    if s == "" {
    } else {
      var t, rest := Lower(s), s[1..];
      assert t[1..] == Lower(rest);
      assert IsSpace(t[0]) <==> IsSpace(s[0]);
      WordsOfLower(rest);
      if IsSpace(s[0]) {
      } else if |s| == 1 || IsSpace(s[1]) {
        assert ([[s[0]]] + Words(rest))[1..] == Words(rest);
        assert Lower([s[0]]) == [t[0]];
      } else {
        assert !IsSpace(t[1]);
        var ws := Words(rest);
        var first := [s[0]] + ws[0];
        assert first[1..] == ws[0];
        assert Lower(first) == [t[0]] + Lower(ws[0]);
        assert ([first] + ws[1..])[1..] == ws[1..];
      }
    }
  }

  /** Text that differs only in whitespace is the same value: cleaning cannot turn a repeated
      answer into a conflict. */
  lemma CleaningKeepsTheValue(s: string)
    ensures SameValue(Text(s), Text(Clean(s)))
  {
    var ws := Words(s);
    WordsOfJoin(ws);
    WordsOfLower(s);
    WordsOfLower(Clean(s));
    assert Words(Lower(Clean(s))) == Words(Lower(s));
  }

  lemma SameValueIsAnEquivalence(a: Value, b: Value, c: Value)
    ensures SameValue(a, a)
    ensures SameValue(a, b) ==> SameValue(b, a)
    ensures SameValue(a, b) && SameValue(b, c) ==> SameValue(a, c)
  {
  }

  // ----- when two values differ ---------------------------------------------

  /** The gaps and the words of a text, in turn. */
  ghost function Laid(gaps: seq<string>, ws: seq<string>): string
    requires |gaps| == |ws| + 1
  {
    if ws == [] then gaps[0] else gaps[0] + ws[0] + Laid(gaps[1..], ws[1..])
  }

  /** Whitespace throughout, and some between any two words. */
  ghost predicate Gaps(gaps: seq<string>) {
    && (forall g, c :: g in gaps && c in g ==> IsSpace(c))
    && (forall i :: 0 < i < |gaps| - 1 ==> gaps[i] != "")
  }

  lemma {:induction false} WordsAfterAGap(gap: string, rest: string)
    requires forall c :: c in gap ==> IsSpace(c)
    ensures Words(gap + rest) == Words(rest)
  {
    if gap == "" {
      assert gap + rest == rest;
    } else {
      assert gap[0] in gap && (gap + rest)[1..] == gap[1..] + rest;
      WordsAfterAGap(gap[1..], rest);
    }
  }

  /** However a text is laid out in words and gaps, those are the words that `split` finds. */
  lemma {:induction false} WordsOfALayout(gaps: seq<string>, ws: seq<string>)
    requires |gaps| == |ws| + 1 && Gaps(gaps) && forall w :: w in ws ==> IsWord(w)
    ensures Words(Laid(gaps, ws)) == ws
  {
    assert gaps[0] in gaps;
    if ws == [] {
      WordsAfterAGap(gaps[0], "");
      assert gaps[0] + "" == gaps[0];
    } else {
      var rest := Laid(gaps[1..], ws[1..]);
      RestOfALayout(gaps, ws);
      WordsOfALayout(gaps[1..], ws[1..]);
      WordsOfGapWordThen(gaps[0], ws[0], rest);
      assert ws == [ws[0]] + ws[1..];
    }
  }

  lemma RestOfALayout(gaps: seq<string>, ws: seq<string>)
    requires |gaps| == |ws| + 1 && ws != [] && Gaps(gaps)
    ensures Gaps(gaps[1..])
    ensures var rest := Laid(gaps[1..], ws[1..]); rest == "" || IsSpace(rest[0])
  {
    assert forall g :: g in gaps[1..] ==> g in gaps;
    LayoutBeginsWithItsGap(gaps[1..], ws[1..]);
  }

  lemma WordsOfGapWordThen(gap: string, w: string, rest: string)
    requires (forall c :: c in gap ==> IsSpace(c)) && IsWord(w) && (rest == "" || IsSpace(rest[0]))
    ensures Words(gap + w + rest) == [w] + Words(rest)
  {
    WordsOfWordThen(w, rest);
    WordsAfterAGap(gap, w + rest);
    Associated(gap, w, rest);
  }

  lemma Associated(a: string, b: string, c: string)
    ensures (a + b) + c == a + (b + c)
  {
  }

  lemma LayoutBeginsWithItsGap(gaps: seq<string>, ws: seq<string>)
    requires |gaps| == |ws| + 1 && (forall g, c :: g in gaps && c in g ==> IsSpace(c))
    ensures gaps[0] != "" ==> Laid(gaps, ws) != "" && IsSpace(Laid(gaps, ws)[0])
    ensures ws == [] ==> Laid(gaps, ws) == gaps[0]
  {
    assert gaps[0] in gaps;
    assert gaps[0] != "" ==> gaps[0][0] in gaps[0];
  }

  /** And every text is laid out so. */
  lemma {:induction false} EveryTextHasALayout(s: string) returns (gaps: seq<string>)
    ensures |gaps| == |Words(s)| + 1 && Gaps(gaps) && s == Laid(gaps, Words(s))
  {
    if s == "" {
      gaps := [""];
    } else {
      var after := EveryTextHasALayout(s[1..]);
      if IsSpace(s[0]) {
        gaps := [[s[0]] + after[0]] + after[1..];
        AGapBeforeALayout(s[0], after, Words(s[1..]), gaps);
      } else if |s| == 1 || IsSpace(s[1]) {
        gaps := [""] + after;
        AWordBeforeALayout(s[0], after, Words(s[1..]));
      } else {
        gaps := after;
        ALetterBeforeALayout(s[0], after, Words(s[1..]));
      }
      assert s == [s[0]] + s[1..];
    }
  }

  lemma AGapBeforeALayout(c: char, gaps: seq<string>, ws: seq<string>, gaps': seq<string>)
    requires |gaps| == |ws| + 1 && Gaps(gaps) && IsSpace(c) && gaps' == [[c] + gaps[0]] + gaps[1..]
    ensures Gaps(gaps') && Laid(gaps', ws) == [c] + Laid(gaps, ws)
  {
    AGapGrows(c, gaps, gaps');
    assert gaps'[1..] == gaps[1..];
    if ws != [] {
      Reassociated([c], gaps[0], ws[0], Laid(gaps[1..], ws[1..]));
    }
  }

  lemma Reassociated(a: string, b: string, c: string, d: string)
    ensures (a + b) + c + d == a + (b + c + d)
  {
  }

  lemma AGapGrows(c: char, gaps: seq<string>, gaps': seq<string>)
    requires gaps != [] && Gaps(gaps) && IsSpace(c) && gaps' == [[c] + gaps[0]] + gaps[1..]
    ensures Gaps(gaps')
  {
    forall g, x | g in gaps' && x in g ensures IsSpace(x) {
      var i :| 0 <= i < |gaps'| && gaps'[i] == g;
      assert gaps[i] in gaps;
      assert i > 0 ==> g == gaps[i];
    }
  }

  lemma AWordBeforeALayout(c: char, gaps: seq<string>, ws: seq<string>)
    requires |gaps| == |ws| + 1 && Gaps(gaps) && (forall w :: w in ws ==> IsWord(w))
    requires Laid(gaps, ws) == "" || IsSpace(Laid(gaps, ws)[0])
    ensures Gaps([""] + gaps) && Laid([""] + gaps, [[c]] + ws) == [c] + Laid(gaps, ws)
  {
    assert ([""] + gaps)[1..] == gaps && ([[c]] + ws)[1..] == ws;
    if ws != [] {
      LayoutBeginsWithAWord(gaps, ws);
    }
    AnEmptyGapBefore(gaps, ws);
  }

  lemma LayoutBeginsWithAWord(gaps: seq<string>, ws: seq<string>)
    requires |gaps| == |ws| + 1 && ws != [] && IsWord(ws[0])
    ensures gaps[0] == "" ==> Laid(gaps, ws) != "" && !IsSpace(Laid(gaps, ws)[0])
  {
    assert ws[0][0] in ws[0];
  }

  lemma AnEmptyGapBefore(gaps: seq<string>, ws: seq<string>)
    requires |gaps| == |ws| + 1 && Gaps(gaps) && (ws != [] ==> gaps[0] != "")
    ensures Gaps([""] + gaps)
  {
    assert forall g :: g in [""] + gaps ==> g == "" || g in gaps;
  }

  lemma ALetterBeforeALayout(c: char, gaps: seq<string>, ws: seq<string>)
    requires |gaps| == |ws| + 1 && Gaps(gaps) && ws != []
    requires Laid(gaps, ws) != "" && !IsSpace(Laid(gaps, ws)[0])
    ensures Laid(gaps, [[c] + ws[0]] + ws[1..]) == [c] + Laid(gaps, ws)
  {
    LayoutBeginsWithItsGap(gaps, ws);
    assert ([[c] + ws[0]] + ws[1..])[1..] == ws[1..];
    LetterFirst(gaps[0], c, ws[0], Laid(gaps[1..], ws[1..]));
  }

  lemma LetterFirst(gap: string, c: char, w: string, rest: string)
    requires gap == ""
    ensures gap + ([c] + w) + rest == [c] + (gap + w + rest)
  {
  }

  /** One letter, in either case. */
  predicate SameLetter(c: char, d: char) {
    c == d || ('A' <= c <= 'Z' && d as int - c as int == 32) || ('A' <= d <= 'Z' && c as int - d as int == 32)
  }

  predicate SameWord(v: string, w: string) {
    |v| == |w| && forall i :: 0 <= i < |v| ==> SameLetter(v[i], w[i])
  }

  predicate SameWords(vs: seq<string>, ws: seq<string>) {
    |vs| == |ws| && forall i :: 0 <= i < |vs| ==> SameWord(vs[i], ws[i])
  }

  /** Two values that contradict each other: two texts, if they differ in the number of their words or in some letter of
      a word, whatever its case; two values of any other kind, or of different kinds, if they are not equal. */
  predicate Contradicts(a: Value, b: Value) {
    if a.Text? && b.Text? then !SameWords(Words(a.text), Words(b.text)) else a != b
  }

  lemma LowerMergesTheCases(c: char, d: char)
    ensures LowerChar(c) == LowerChar(d) <==> SameLetter(c, d)
  {
  }

  lemma LowerWordsAreSameWords(v: string, w: string)
    ensures Lower(v) == Lower(w) <==> SameWord(v, w)
  {
    var x, y := Lower(v), Lower(w);
    forall i | 0 <= i < |v| && i < |w| ensures x[i] == y[i] <==> SameLetter(v[i], w[i]) {
      LowerMergesTheCases(v[i], w[i]);
    }
    if SameWord(v, w) {
      assert forall i :: 0 <= i < |x| ==> x[i] == y[i];
    }
  }

  lemma {:induction false} LowerAllAreSameWords(vs: seq<string>, ws: seq<string>)
    ensures LowerAll(vs) == LowerAll(ws) <==> SameWords(vs, ws)
  {
    if vs == [] || ws == [] {
    } else {
      LowerWordsAreSameWords(vs[0], ws[0]);
      LowerAllAreSameWords(vs[1..], ws[1..]);
      assert LowerAll(vs)[1..] == LowerAll(vs[1..]) && LowerAll(ws)[1..] == LowerAll(ws[1..]);
      assert SameWords(vs, ws) <==> SameWord(vs[0], ws[0]) && SameWords(vs[1..], ws[1..]) by {
        if |vs| == |ws| && SameWord(vs[0], ws[0]) && SameWords(vs[1..], ws[1..]) {
          assert forall i :: 0 < i < |vs| ==> vs[i] == vs[1..][i - 1] && ws[i] == ws[1..][i - 1];
        }
      }
    }
  }

  /** What `_same_value` means. */
  lemma ValuesDifferIffTheyContradict(a: Value, b: Value)
    ensures SameValue(a, b) <==> !Contradicts(a, b)
  {
    if a.Text? && b.Text? {
      var v, w := Words(Lower(a.text)), Words(Lower(b.text));
      WordsOfJoin(v);
      WordsOfJoin(w);
      WordsOfLower(a.text);
      WordsOfLower(b.text);
      LowerAllAreSameWords(Words(a.text), Words(b.text));
    }
  }

  /** Cleaned text has the same words, one space between any two, and no other whitespace. */
  ghost predicate SpacedOnce(s: string) {
    forall i :: 0 <= i < |s| && IsSpace(s[i]) ==> s[i] == ' ' && 0 < i < |s| - 1 && !IsSpace(s[i + 1])
  }

  lemma {:induction false} JoinedWordsAreSpacedOnce(ws: seq<string>)
    requires forall w :: w in ws ==> IsWord(w)
    ensures SpacedOnce(Join(ws)) && (Join(ws) != "" ==> !IsSpace(Join(ws)[0]))
    ensures ws != [] ==> Join(ws) != ""
  {
    if ws == [] {
    } else {
      assert ws[0] in ws;
      var w := ws[0];
      assert w[0] in w;
      if |ws| == 1 {
        assert forall i :: 0 <= i < |w| ==> w[i] in w;
      } else {
        var rest := Join(ws[1..]);
        JoinedWordsAreSpacedOnce(ws[1..]);
        var s := w + " " + rest;
        assert forall i :: 0 <= i < |w| ==> w[i] in w && s[i] == w[i];
        forall i | 0 <= i < |s| && IsSpace(s[i]) ensures s[i] == ' ' && 0 < i < |s| - 1 && !IsSpace(s[i + 1]) {
          if i > |w| {
            assert s[i] == rest[i - |w| - 1];
            assert s[i + 1] == rest[i - |w|];
          } else {
            assert s[i + 1] == rest[0];
          }
        }
      }
    }
  }

  lemma CleaningSpacesOnce(s: string)
    ensures Words(Clean(s)) == Words(s) && SpacedOnce(Clean(s))
  {
    WordsOfJoin(Words(s));
    JoinedWordsAreSpacedOnce(Words(s));
  }

  /** Free text is cleaned, and text that was blank counts as not stated. */
  function Normalize(m: Fields): (r: Fields)
    ensures forall f :: f in r <==> f in m && (m[f].Text? ==> Clean(m[f].text) != "")
    ensures forall f :: f in r ==> r[f] == if m[f].Text? then Text(Clean(m[f].text)) else m[f]
  {
    map f | f in m && (m[f].Text? ==> Clean(m[f].text) != "")
      :: if m[f].Text? then Text(Clean(m[f].text)) else m[f]
  }

  // ----- merge --------------------------------------------------------------

  datatype FieldConflict = FieldConflict(field: FieldName, existing: Value, incoming: Value)

  datatype MergeResult = MergeResult(
    record: Fields,
    changed: seq<FieldName>,
    confirmed: seq<FieldName>,
    conflicts: seq<FieldConflict>)

  /** An incoming value that disagrees with the stored one. */
  predicate Clash(existing: Fields, incoming: Fields, f: FieldName) {
    f in incoming && f in existing && !SameValue(existing[f], incoming[f])
  }

  predicate Fill(existing: Fields, incoming: Fields, f: FieldName) {
    f in incoming && f !in existing
  }

  predicate Confirm(existing: Fields, incoming: Fields, f: FieldName) {
    f in incoming && f in existing && SameValue(existing[f], incoming[f])
  }

  ghost function FilledIn(fs: seq<FieldName>, existing: Fields, incoming: Fields): seq<FieldName> {
    if fs == [] then []
    else FilledIn(fs[..|fs| - 1], existing, incoming)
         + if Fill(existing, incoming, fs[|fs| - 1]) then [fs[|fs| - 1]] else []
  }

  ghost function ConfirmedIn(fs: seq<FieldName>, existing: Fields, incoming: Fields): seq<FieldName> {
    if fs == [] then []
    else ConfirmedIn(fs[..|fs| - 1], existing, incoming)
         + if Confirm(existing, incoming, fs[|fs| - 1]) then [fs[|fs| - 1]] else []
  }

  ghost function ConflictsIn(fs: seq<FieldName>, existing: Fields, incoming: Fields): seq<FieldConflict> {
    if fs == [] then []
    else var f := fs[|fs| - 1];
         ConflictsIn(fs[..|fs| - 1], existing, incoming)
         + if Clash(existing, incoming, f) then [FieldConflict(f, existing[f], incoming[f])] else []
  }

  /** What the merge rules promise, stated without the loop: an absent field is filled, an agreeing
      one is confirmed, a disagreeing one is reported and the stored value kept. */
  ghost function Merge(existing: Fields, stated: Fields): MergeResult {
    var incoming := Normalize(stated);
    MergeResult(incoming + existing,
                FilledIn(FIELDS, existing, incoming),
                ConfirmedIn(FIELDS, existing, incoming),
                ConflictsIn(FIELDS, existing, incoming))
  }

  /** The loop of the source, over any list of fields. */
  method MergeFields(fs: seq<FieldName>, existing: Fields, incoming: Fields) returns (r: MergeResult)
    ensures r.changed == FilledIn(fs, existing, incoming)
    ensures r.confirmed == ConfirmedIn(fs, existing, incoming)
    ensures r.conflicts == ConflictsIn(fs, existing, incoming)
    ensures forall f :: f in r.record <==> f in existing || (f in incoming && f in fs)
    ensures forall f :: f in r.record ==> r.record[f] == if f in existing then existing[f] else incoming[f]
  {
    var updates: Fields := map[];
    var changed, confirmed: seq<FieldName> := [], [];
    var conflicts: seq<FieldConflict> := [];
    for i := 0 to |fs|
      invariant forall f :: f in updates <==> Fill(existing, incoming, f) && f in fs[..i]
      invariant forall f :: f in updates ==> updates[f] == incoming[f]
      invariant changed == FilledIn(fs[..i], existing, incoming)
      invariant confirmed == ConfirmedIn(fs[..i], existing, incoming)
      invariant conflicts == ConflictsIn(fs[..i], existing, incoming)
    {
      var field := fs[i];
      assert fs[..i + 1] == fs[..i] + [field];
      assert fs[..i + 1][..i] == fs[..i];
      if field in incoming {
        if field !in existing {
          updates := updates[field := incoming[field]];
          changed := changed + [field];
        } else if SameValue(existing[field], incoming[field]) {
          confirmed := confirmed + [field];
        } else {
          conflicts := conflicts + [FieldConflict(field, existing[field], incoming[field])];
        }
      }
    }
    assert fs[..|fs|] == fs;
    r := MergeResult(existing + updates, changed, confirmed, conflicts);
  }

  method MergeShipment(existing: Fields, stated: Fields) returns (r: MergeResult)
    ensures r == Merge(existing, stated)
  {
    var incoming := Normalize(stated);
    r := MergeFields(FIELDS, existing, incoming);
    EveryFieldIsListed();
    assert r.record == incoming + existing;
  }

  /** The fields of the conflicts, as a set. */
  function FieldsOf(conflicts: seq<FieldConflict>): set<FieldName> {
    set c | c in conflicts :: c.field
  }

  lemma FieldsOfAppend(cs: seq<FieldConflict>, ds: seq<FieldConflict>)
    ensures FieldsOf(cs + ds) == FieldsOf(cs) + FieldsOf(ds)
  {
    forall f ensures f in FieldsOf(cs + ds) <==> f in FieldsOf(cs) + FieldsOf(ds) {
      if f in FieldsOf(cs) {
        var c :| c in cs && c.field == f;
        assert c in cs + ds;
      }
      if f in FieldsOf(ds) {
        var c :| c in ds && c.field == f;
        assert c in cs + ds;
      }
    }
  }

  lemma {:induction false} MergeLists(fs: seq<FieldName>, existing: Fields, incoming: Fields)
    ensures forall f :: f in FilledIn(fs, existing, incoming) <==> f in fs && Fill(existing, incoming, f)
    ensures forall f :: f in ConfirmedIn(fs, existing, incoming) <==> f in fs && Confirm(existing, incoming, f)
    ensures forall f :: f in FieldsOf(ConflictsIn(fs, existing, incoming)) <==> f in fs && Clash(existing, incoming, f)
    ensures forall c :: c in ConflictsIn(fs, existing, incoming)
                        ==> Clash(existing, incoming, c.field)
                            && c == FieldConflict(c.field, existing[c.field], incoming[c.field])
  {
    if fs == [] {
    } else {
      var before, f := fs[..|fs| - 1], fs[|fs| - 1];
      MergeLists(before, existing, incoming);
      assert fs == before + [f];
      if Clash(existing, incoming, f) {
        var c := FieldConflict(f, existing[f], incoming[f]);
        FieldsOfAppend(ConflictsIn(before, existing, incoming), [c]);
        assert c in [c];
      }
    }
  }

  /** In canonical order, each once. */
  ghost predicate InOrder(fs: seq<FieldName>) {
    forall i, j :: 0 <= i < j < |fs| ==> Position(fs[i]) < Position(fs[j])
  }

  ghost function ConflictFields(cs: seq<FieldConflict>): (fs: seq<FieldName>)
    ensures |fs| == |cs| && forall i :: 0 <= i < |cs| ==> fs[i] == cs[i].field
  {
    seq(|cs|, i requires 0 <= i < |cs| => cs[i].field)
  }

  lemma OneMoreInOrder(fs: seq<FieldName>, of: seq<FieldName>, f: FieldName)
    requires InOrder(of + [f]) && InOrder(fs) && forall g :: g in fs ==> g in of
    ensures InOrder(fs + [f])
  {
    forall i | 0 <= i < |fs| ensures Position(fs[i]) < Position(f) {
      assert fs[i] in fs;
      var k :| 0 <= k < |of| && of[k] == fs[i];
      assert (of + [f])[k] == of[k] && (of + [f])[|of|] == f;
    }
  }

  lemma {:induction false} ListsKeepTheOrder(fs: seq<FieldName>, existing: Fields, incoming: Fields)
    requires InOrder(fs)
    ensures InOrder(FilledIn(fs, existing, incoming)) && InOrder(ConfirmedIn(fs, existing, incoming))
    ensures forall f :: f in FilledIn(fs, existing, incoming) ==> f in fs
    ensures forall f :: f in ConfirmedIn(fs, existing, incoming) ==> f in fs
  {
    if fs == [] {
    } else {
      var before, f := fs[..|fs| - 1], fs[|fs| - 1];
      assert fs == before + [f];
      ListsKeepTheOrder(before, existing, incoming);
      OneMoreInOrder(FilledIn(before, existing, incoming), before, f);
      OneMoreInOrder(ConfirmedIn(before, existing, incoming), before, f);
    }
  }

  lemma {:induction false} ConflictsKeepTheOrder(fs: seq<FieldName>, existing: Fields, incoming: Fields)
    requires InOrder(fs)
    ensures InOrder(ConflictFields(ConflictsIn(fs, existing, incoming)))
    ensures forall f :: f in ConflictFields(ConflictsIn(fs, existing, incoming)) ==> f in fs
  {
    if fs == [] {
    } else {
      var before, f := fs[..|fs| - 1], fs[|fs| - 1];
      var cs := ConflictsIn(before, existing, incoming);
      assert fs == before + [f];
      ConflictsKeepTheOrder(before, existing, incoming);
      OneMoreInOrder(ConflictFields(cs), before, f);
      if Clash(existing, incoming, f) {
        assert ConflictFields(cs + [FieldConflict(f, existing[f], incoming[f])]) == ConflictFields(cs) + [f];
      }
    }
  }

  /** The three lists come in canonical order, with no field twice. */
  lemma MergeListsFieldsInOrder(existing: Fields, stated: Fields)
    ensures var r := Merge(existing, stated);
            InOrder(r.changed) && InOrder(r.confirmed) && InOrder(ConflictFields(r.conflicts))
  {
    forall i, j | 0 <= i < j < |FIELDS| ensures Position(FIELDS[i]) < Position(FIELDS[j]) {
      FieldsAreListedOnce(i);
      FieldsAreListedOnce(j);
    }
    ListsKeepTheOrder(FIELDS, existing, Normalize(stated));
    ConflictsKeepTheOrder(FIELDS, existing, Normalize(stated));
  }

  /** A merge never replaces a value; it fills exactly the fields it reports as changed, each with
      what was stated. */
  lemma MergeNeverReplaces(existing: Fields, stated: Fields)
    ensures var r := Merge(existing, stated);
            && (forall f :: f in existing ==> f in r.record && r.record[f] == existing[f])
            && (forall f :: f in r.record && f !in existing
                            ==> f in Normalize(stated) && r.record[f] == Normalize(stated)[f])
            && (forall f :: f in r.changed <==> f in r.record && f !in existing)
  {
    MergeLists(FIELDS, existing, Normalize(stated));
    EveryFieldIsListed();
  }

  /** Every stated field is reported exactly once: as a change, a confirmation or a conflict; and a
      conflict carries both values as they were. */
  lemma MergeReportsEveryStatedField(existing: Fields, stated: Fields, f: FieldName)
    ensures var r := Merge(existing, stated); var incoming := Normalize(stated);
            && (f in r.changed <==> Fill(existing, incoming, f))
            && (f in r.confirmed <==> Confirm(existing, incoming, f))
            && (f in FieldsOf(r.conflicts) <==> Clash(existing, incoming, f))
            && (f in incoming <==> f in r.changed || f in r.confirmed || f in FieldsOf(r.conflicts))
            && (forall c :: c in r.conflicts ==> f == c.field ==>
                  f in existing && f in incoming && c.existing == existing[f] && c.incoming == incoming[f])
  {
    MergeLists(FIELDS, existing, Normalize(stated));
    EveryFieldIsListed();
  }

  /** A value a message states: text counts only if there is a word in it. */
  predicate States(stated: Fields, f: FieldName) {
    f in stated && (stated[f].Text? ==> Words(stated[f].text) != [])
  }

  /** The three outcomes of a stated field, from the message and the record alone: filled if nothing is stored; in
      conflict if what is stored contradicts it, and then both values are carried; confirmed otherwise. */
  lemma MergeTellsFillsFromContradictions(existing: Fields, stated: Fields, f: FieldName)
    ensures var r := Merge(existing, stated);
            && (f in r.changed <==> States(stated, f) && f !in existing)
            && (f in FieldsOf(r.conflicts)
                <==> States(stated, f) && f in existing && Contradicts(existing[f], stated[f]))
            && (f in r.confirmed <==> States(stated, f) && f in existing && !Contradicts(existing[f], stated[f]))
            && (f in r.record <==> f in existing || States(stated, f))
            && (f in existing ==> r.record[f] == existing[f])
            && (f in r.changed ==> Restates(r.record[f], stated[f]))
            && (forall c :: c in r.conflicts && c.field == f ==>
                  f in existing && f in stated && c.existing == existing[f] && Restates(c.incoming, stated[f]))
  {
    MergeReportsEveryStatedField(existing, stated, f);
    MergeNeverReplaces(existing, stated);
    NormalizingRestates(stated, f);
    if f in existing && f in Normalize(stated) {
      ValuesDifferIffTheyContradict(existing[f], Normalize(stated)[f]);
    }
  }

  lemma NormalizingRestates(stated: Fields, f: FieldName)
    ensures f in Normalize(stated) <==> States(stated, f)
    ensures f in Normalize(stated) ==> Restates(Normalize(stated)[f], stated[f])
  {
    if f in stated && stated[f].Text? {
      CleanIsIdempotent(stated[f].text);
      CleaningSpacesOnce(stated[f].text);
    }
  }

  /** The same value; text is stripped of all spacing but one space between two words. */
  ghost predicate Restates(kept: Value, said: Value) {
    if said.Text? then kept.Text? && Words(kept.text) == Words(said.text) && SpacedOnce(kept.text) else kept == said
  }

  /** A client repeating what is already known, in any case and spacing, changes nothing and
      contradicts nothing. */
  lemma RepeatingIsNeverAConflict(existing: Fields, stated: Fields)
    requires forall f :: f in stated ==> f in existing && SameValue(existing[f], stated[f])
    ensures Merge(existing, stated).record == existing
    ensures Merge(existing, stated).conflicts == [] && Merge(existing, stated).changed == []
  {
    var incoming := Normalize(stated);
    forall f | f in incoming ensures SameValue(existing[f], incoming[f]) {
      if stated[f].Text? {
        CleaningKeepsTheValue(stated[f].text);
        SameValueIsAnEquivalence(existing[f], stated[f], incoming[f]);
      }
    }
    MergeLists(FIELDS, existing, incoming);
    var r := Merge(existing, stated);
    NoMembers(r.conflicts);
    NoMembers(r.changed);
  }
}
