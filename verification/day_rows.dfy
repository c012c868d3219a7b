/**
 * The producer-side row normalisation of day.py: `normalize_memo`,
 * `normalize_bookings` (in place over the list of booking rows) and the
 * normalisation `push_sheet_to_api` repeats inline before it uploads.
 *
 * A booking row is a Python dict, modelled as a map from column name to
 * value; a list entry that is not a dict is kept apart as `NonDict`.
 */
module DayRows {
  import opened PyValues
  import SheetStore

  type Dict = map<string, PyVal>

  datatype Row = DictRow(d: Dict) | NonDict(v: PyVal)

  const MemoKey: string := "관리메모"
  const TogetherKey: string := "같이온사이트"
  /** The money and count columns forced to text. */
  const MoneyKeys: seq<string> := ["총 이용료", "현장결제 금액", "선결제 금액", "예약 인원"]
  /** The display columns forced to text. */
  const DisplayKeys: seq<string> := ["연락처", "예약일", "사이트", "고객명", "차량", "요청사항"]
  const TextKeys: seq<string> := MoneyKeys + DisplayKeys

  /** `d.get(k, default)`. */
  function Get(d: Dict, k: string, default: PyVal): PyVal {
    if k in d then d[k] else default
  }

  // ---------------------------------------------------------------------------
  // normalize_memo
  // ---------------------------------------------------------------------------

  /** `normalize_memo`: nothing for `None` or blank text, the non-blank trimmed
      elements of a list, the non-blank trimmed lines of a multi-line text,
      and otherwise the trimmed text alone. */
  function NormalizeMemo(v: PyVal): seq<string> {
    if v.PNone? || Strip(Str(v)) == "" then []
    else if v.PList? then CleanParts(MapStr(v.items))
    else if '\n' in Str(v) then CleanLines(Str(v))
    else [Strip(Str(v))]
  }

  /** The memo never holds an empty, blank or untrimmed entry. */
  lemma {:induction false} NormalizeMemoIsClean(v: PyVal)
    ensures Clean(NormalizeMemo(v))
    ensures v.PNone? ==> NormalizeMemo(v) == []
  {
    var t := Str(v);
    if v.PNone? || Strip(t) == "" {
    } else if v.PList? {
      CleanPartsClean(MapStr(v.items));
    } else if '\n' in t {
      CleanLinesClean(t);
    } else {
      StripClean(t);
    }
  }

  /** A list is never blank text, so a list memo keeps its non-blank trimmed elements. */
  lemma {:induction false} NormalizeMemoOfList(xs: seq<PyVal>)
    ensures NormalizeMemo(PList(xs)) == CleanParts(MapStr(xs))
  {
    var t := Str(PList(xs));
    assert !IsSpace(t[0]);
    assert !AllSpace(t);
  }

  /** For any value other than `None` and a list, the memo is the non-blank
      trimmed lines of its text, single-line and blank texts included. */
  lemma {:induction false} NormalizeMemoOfText(v: PyVal)
    requires !v.PNone? && !v.PList?
    ensures NormalizeMemo(v) == CleanLines(Str(v))
  {
    var t := Str(v);
    if Strip(t) == "" {
      CleanLinesOfBlank(t);
    } else if '\n' !in t {
      CleanLinesSingle(t);
    }
  }

  /** Normalising a normalised memo (stored as a list) gives it back. */
  lemma {:induction false} NormalizeMemoIdempotent(v: PyVal)
    ensures NormalizeMemo(StrList(NormalizeMemo(v))) == NormalizeMemo(v)
  {
    var xs := NormalizeMemo(v);
    NormalizeMemoIsClean(v);
    NormalizeMemoOfList(StrList(xs).items);
    assert MapStr(StrList(xs).items) == xs;
    CleanPartsOfClean(xs);
  }

  /** The producer's memo normalisation and the patch's memo standardisation
      agree on every value. */
  lemma {:induction false} NormalizeMemoAgreesWithPatch(v: PyVal)
    ensures NormalizeMemo(v) == SheetStore.StdMemo(v)
  {
    if v.PList? {
      NormalizeMemoOfList(v.items);
    } else if !v.PNone? {
      NormalizeMemoOfText(v);
      SheetStore.StdMemoOfText(v);
    }
  }

  // ---------------------------------------------------------------------------
  // Together-sites and text columns
  // ---------------------------------------------------------------------------

  /** The non-blank entries, untrimmed: `[x for x in xs if x.strip()]`. */
  function NonBlank(xs: seq<string>): seq<string> {
    if xs == [] then []
    else (if Strip(xs[0]) != "" then [xs[0]] else []) + NonBlank(xs[1..])
  }

  /** `[x.strip() for x in xs]`. */
  function MapStrip(xs: seq<string>): seq<string> {
    if xs == [] then [] else [Strip(xs[0])] + MapStrip(xs[1..])
  }

  /** The upload keeps exactly the entries `normalize_bookings` keeps, only untrimmed. */
  lemma {:induction false} NonBlankThenStrip(xs: seq<string>)
    ensures MapStrip(NonBlank(xs)) == CleanParts(xs)
  {
    if xs != [] {
      NonBlankThenStrip(xs[1..]);
      var rest := NonBlank(xs[1..]);
      if Strip(xs[0]) != "" {
        assert NonBlank(xs) == [xs[0]] + rest;
        assert ([xs[0]] + rest)[1..] == rest;
      } else {
        assert NonBlank(xs) == rest;
      }
    }
  }

  /** The upload drops exactly the blank entries: what it keeps is never blank. */
  lemma {:induction false} NonBlankKeepsNonBlank(xs: seq<string>)
    ensures |NonBlank(xs)| <= |xs|
    ensures forall i :: 0 <= i < |NonBlank(xs)| ==> Strip(NonBlank(xs)[i]) != ""
  {
    if xs != [] {
      NonBlankKeepsNonBlank(xs[1..]);
    }
  }

  lemma {:induction false} NonBlankOfClean(xs: seq<string>)
    requires Clean(xs)
    ensures NonBlank(xs) == xs
  {
    if xs != [] {
      StripOfClean(xs[0]);
      NonBlankOfClean(xs[1..]);
    }
  }

  /** `같이온사이트` in `normalize_bookings`: trimmed non-blank entries of a
      list, the trimmed text of anything else, nothing for `None` or blank text. */
  function TogetherForBookings(gs: PyVal): seq<string> {
    if gs.PNone? then []
    else if gs.PList? then CleanParts(MapStr(gs.items))
    else var s := Strip(Str(gs)); if s == "" then [] else [s]
  }

  /** The together-sites `normalize_bookings` keeps are non-empty and trimmed. */
  lemma {:induction false} TogetherForBookingsClean(gs: PyVal)
    ensures Clean(TogetherForBookings(gs))
  {
    if gs.PList? {
      CleanPartsClean(MapStr(gs.items));
    } else if !gs.PNone? {
      StripClean(Str(gs));
    }
  }

  /** `같이온사이트` in `push_sheet_to_api`: list entries are kept untrimmed. */
  function TogetherForPush(gs: PyVal): seq<string> {
    if gs.PNone? then []
    else if gs.PList? then NonBlank(MapStr(gs.items))
    else var s := Strip(Str(gs)); if s == "" then [] else [s]
  }

  /** The two together-site normalisations keep the same entries, the upload's untrimmed. */
  lemma {:induction false} TogetherPushThenStrip(gs: PyVal)
    ensures MapStrip(TogetherForPush(gs)) == TogetherForBookings(gs)
  {
    if gs.PList? {
      NonBlankThenStrip(MapStr(gs.items));
    } else if !gs.PNone? {
      var s := Strip(Str(gs));
      if s != "" {
        StripIdempotent(Str(gs));
        assert MapStrip([s]) == [Strip(s)];
      }
    }
  }

  /** Padding inside a list entry survives the upload's normalisation but not `normalize_bookings`. */
  lemma TogetherPushKeepsPadding()
    ensures TogetherForPush(PList([PStr(" A1")])) == [" A1"]
    ensures TogetherForBookings(PList([PStr(" A1")])) == ["A1"]
  {
    StripPadded("A1");
    assert " A1" == [' '] + "A1";
    var items := [PStr(" A1")];
    assert MapStr(items) == [" A1"];
    assert [" A1"][1..] == [];
    assert NonBlank([" A1"]) == [" A1"];
    assert CleanParts([" A1"]) == ["A1"];
  }

  /** The text form of a column: `None` becomes `""`, text stays, anything else becomes `str(v)`. */
  function AsText(v: PyVal): (r: PyVal)
    ensures r.PStr?
    ensures v.PStr? ==> r == v
    ensures v.PNone? ==> r == PStr("")
    ensures !v.PNone? ==> r == PStr(Str(v))
  {
    if v.PNone? then PStr("")
    else if v.PStr? then v
    else PStr(Str(v))
  }

  /** The loop over the listed columns: each is replaced by its text form. */
  function StringifyKeys(d: Dict, keys: seq<string>): Dict
    decreases |keys|
  {
    if keys == [] then d
    else StringifyKeys(d[keys[0] := AsText(Get(d, keys[0], PNone))], keys[1..])
  }

  /** After the loop every listed column holds the text form of its old value,
      even when a column is listed twice, and every other column is as it was. */
  lemma {:induction false} StringifyKeysSpec(d: Dict, keys: seq<string>)
    ensures var r := StringifyKeys(d, keys);
      && (forall k :: k in keys ==> k in r && r[k] == AsText(Get(d, k, PNone)))
      && (forall k :: k !in keys ==> (k in r <==> k in d))
      && (forall k :: k !in keys && k in d ==> r[k] == d[k])
    decreases |keys|
  {
    if keys != [] {
      var d1 := d[keys[0] := AsText(Get(d, keys[0], PNone))];
      StringifyKeysSpec(d1, keys[1..]);
    }
  }

  /** The common part of both row normalisations, given the together-sites list. */
  function FinishRow(d: Dict, together: seq<string>): Dict {
    StringifyKeys(d[MemoKey := StrList(NormalizeMemo(Get(d, MemoKey, PStr(""))))][TogetherKey := StrList(together)],
                  TextKeys)
  }

  /** One dict row as `normalize_bookings` leaves it. */
  function NormalizeBookingRow(d: Dict): Dict {
    FinishRow(d, TogetherForBookings(Get(d, TogetherKey, PNone)))
  }

  /** One dict row as `push_sheet_to_api` leaves it before the upload. */
  function PushRow(d: Dict): Dict {
    FinishRow(d, TogetherForPush(Get(d, TogetherKey, PNone)))
  }

  predicate IsListOf(v: PyVal, xs: seq<string>) {
    v == StrList(xs)
  }

  /** The memo and together-sites columns are not among the text columns. */
  lemma ListKeysNotText()
    ensures MemoKey !in TextKeys && TogetherKey !in TextKeys && MemoKey != TogetherKey
  {
  }

  /** What `FinishRow` leaves: the two list columns as given, every listed
      column as text, every other column as it was. */
  lemma {:induction false} FinishRowShape(d: Dict, together: seq<string>)
    ensures var r := FinishRow(d, together);
      && MemoKey in r && IsListOf(r[MemoKey], NormalizeMemo(Get(d, MemoKey, PStr(""))))
      && TogetherKey in r && IsListOf(r[TogetherKey], together)
      && (forall k :: k in TextKeys ==> k in r && r[k].PStr? && r[k] == AsText(Get(d, k, PNone)))
      && (forall k :: k !in TextKeys && k != MemoKey && k != TogetherKey ==>
            (k in r <==> k in d) && (k in d ==> r[k] == d[k]))
  {
    ListKeysNotText();
    var d2 := d[MemoKey := StrList(NormalizeMemo(Get(d, MemoKey, PStr(""))))][TogetherKey := StrList(together)];
    StringifyKeysSpec(d2, TextKeys);
    forall k | k in TextKeys ensures Get(d2, k, PNone) == Get(d, k, PNone) {
    }
  }

  /** What a normalised row holds: the memo and the together-sites as lists of
      non-blank trimmed texts, every listed column as text (`None` and missing
      as `""`), and every other column as it was. */
  lemma {:induction false} NormalizedRowShape(d: Dict)
    ensures var r := NormalizeBookingRow(d);
      && MemoKey in r && IsListOf(r[MemoKey], NormalizeMemo(Get(d, MemoKey, PStr(""))))
      && Clean(NormalizeMemo(Get(d, MemoKey, PStr(""))))
      && TogetherKey in r && IsListOf(r[TogetherKey], TogetherForBookings(Get(d, TogetherKey, PNone)))
      && (forall k :: k in TextKeys ==> k in r && r[k].PStr? && r[k] == AsText(Get(d, k, PNone)))
      && (forall k :: k !in TextKeys && k != MemoKey && k != TogetherKey ==>
            (k in r <==> k in d) && (k in d ==> r[k] == d[k]))
  {
    FinishRowShape(d, TogetherForBookings(Get(d, TogetherKey, PNone)));
    NormalizeMemoIsClean(Get(d, MemoKey, PStr("")));
  }

  lemma {:induction false} NormalizeMemoOfCleanList(xs: seq<string>)
    requires Clean(xs)
    ensures NormalizeMemo(StrList(xs)) == xs
  {
    NormalizeMemoOfList(StrList(xs).items);
    assert MapStr(StrList(xs).items) == xs;
    CleanPartsOfClean(xs);
  }

  /** A row whose list columns already hold clean lists and whose listed
      columns are already text is a fixed point of `FinishRow`. */
  lemma {:induction false} FinishRowOfNormalized(d: Dict, memos: seq<string>, together: seq<string>)
    requires MemoKey in d && d[MemoKey] == StrList(memos) && Clean(memos)
    requires TogetherKey in d && d[TogetherKey] == StrList(together)
    requires forall k :: k in TextKeys ==> k in d && d[k].PStr?
    ensures FinishRow(d, together) == d
  {
    var r := FinishRow(d, together);
    FinishRowShape(d, together);
    ListKeysNotText();
    NormalizeMemoOfCleanList(memos);
    assert IsListOf(r[MemoKey], memos);
    forall k ensures k in r <==> k in d {
      if k != MemoKey && k != TogetherKey && k !in TextKeys {
      }
    }
    forall k | k in d ensures r[k] == d[k] {
      if k == MemoKey {
      } else if k == TogetherKey {
      } else if k in TextKeys {
        assert Get(d, k, PNone) == d[k];
      }
    }
  }

  /** `normalize_bookings` applied to its own output changes nothing. */
  lemma {:induction false} NormalizeBookingRowIdempotent(d: Dict)
    ensures NormalizeBookingRow(NormalizeBookingRow(d)) == NormalizeBookingRow(d)
  {
    var r := NormalizeBookingRow(d);
    var sites := TogetherForBookings(Get(d, TogetherKey, PNone));
    NormalizedRowShape(d);
    TogetherForBookingsClean(Get(d, TogetherKey, PNone));
    assert MapStr(StrList(sites).items) == sites;
    CleanPartsOfClean(sites);
    assert TogetherForBookings(Get(r, TogetherKey, PNone)) == sites;
    FinishRowOfNormalized(r, NormalizeMemo(Get(d, MemoKey, PStr(""))), sites);
  }

  /** Uploading rows that `normalize_bookings` already normalised changes none of them. */
  lemma {:induction false} PushRowOfNormalized(d: Dict)
    ensures PushRow(NormalizeBookingRow(d)) == NormalizeBookingRow(d)
  {
    var r := NormalizeBookingRow(d);
    var sites := TogetherForBookings(Get(d, TogetherKey, PNone));
    NormalizedRowShape(d);
    TogetherForBookingsClean(Get(d, TogetherKey, PNone));
    assert MapStr(StrList(sites).items) == sites;
    NonBlankOfClean(sites);
    assert TogetherForPush(Get(r, TogetherKey, PNone)) == sites;
    FinishRowOfNormalized(r, NormalizeMemo(Get(d, MemoKey, PStr(""))), sites);
  }

  // ---------------------------------------------------------------------------
  // The lists of rows
  // ---------------------------------------------------------------------------

  /** A list entry after `normalize_bookings`: dicts normalised, anything else skipped. */
  function NormalizeEntry(r: Row): Row {
    match r
    case DictRow(d) => DictRow(NormalizeBookingRow(d))
    case NonDict(_) => r
  }

  function NormalizeAll(rows: seq<Row>): (r: seq<Row>)
    ensures |r| == |rows|
  {
    seq(|rows|, i requires 0 <= i < |rows| => NormalizeEntry(rows[i]))
  }

  /** `normalize_bookings` is idempotent on whole lists. */
  lemma {:induction false} NormalizeAllIdempotent(rows: seq<Row>)
    ensures NormalizeAll(NormalizeAll(rows)) == NormalizeAll(rows)
  {
    forall i | 0 <= i < |rows| ensures NormalizeAll(NormalizeAll(rows))[i] == NormalizeAll(rows)[i] {
      if rows[i].DictRow? {
        NormalizeBookingRowIdempotent(rows[i].d);
      }
    }
  }

  /** `normalize_bookings`: `None` gives a new empty list; otherwise the same
      list comes back with every dict row normalised in place. */
  method NormalizeBookings(bookings: array?<Row>) returns (r: array<Row>)
    modifies bookings
    ensures bookings == null ==> fresh(r) && r.Length == 0
    ensures bookings != null ==> r == bookings && r[..] == NormalizeAll(old(bookings[..]))
  {
    if bookings == null {
      r := new Row[0];
      return;
    }
    var i := 0;
    while i < bookings.Length
      invariant 0 <= i <= bookings.Length
      invariant forall j :: 0 <= j < i ==> bookings[j] == NormalizeEntry(old(bookings[j]))
      invariant forall j :: i <= j < bookings.Length ==> bookings[j] == old(bookings[j])
    {
      if bookings[i].DictRow? {
        bookings[i] := DictRow(NormalizeBookingRow(bookings[i].d));
      }
      i := i + 1;
    }
    r := bookings;
  }

  /** The index of the first entry that is not a dict (the length when all are). */
  function FirstNonDict(rows: seq<Row>): (n: nat)
    ensures n <= |rows|
    ensures forall i :: 0 <= i < n ==> rows[i].DictRow?
    ensures n < |rows| ==> rows[n].NonDict?
  {
    if rows == [] then 0
    else if rows[0].NonDict? then 0
    else 1 + FirstNonDict(rows[1..])
  }

  /** The first non-dict entry is the one every entry before is a dict and
      which is not (or the end of the list). */
  lemma {:induction false} FirstNonDictAt(rows: seq<Row>, k: nat)
    requires k <= |rows|
    requires forall j :: 0 <= j < k ==> rows[j].DictRow?
    requires k < |rows| ==> rows[k].NonDict?
    ensures FirstNonDict(rows) == k
    decreases k
  {
    if k > 0 {
      FirstNonDictAt(rows[1..], k - 1);
    }
  }

  /** A list entry after the upload's normalisation of a dict row. */
  function PushEntry(r: Row): Row {
    match r
    case DictRow(d) => DictRow(PushRow(d))
    case NonDict(_) => r
  }

  /** The inline loop of `push_sheet_to_api`: dict rows are normalised in
      place, in order, until an entry that is not a dict makes the loop raise;
      the entries from there on are left as they were. */
  method NormalizeForPush(a: array<Row>) returns (ok: bool)
    modifies a
    ensures ok <==> FirstNonDict(old(a[..])) == a.Length
    ensures forall i :: 0 <= i < FirstNonDict(old(a[..])) ==> a[i] == PushEntry(old(a[i]))
    ensures forall i :: FirstNonDict(old(a[..])) <= i < a.Length ==> a[i] == old(a[i])
  {
    ok := UpdateDictsInPlace(a, PushRow);
  }

  /** The loop shape `push_sheet_to_api` uses, for any per-row update `f`:
      each dict row `d` becomes `f(d)`, in order, until the first entry that
      is not a dict. */
  method UpdateDictsInPlace(a: array<Row>, f: Dict -> Dict) returns (ok: bool)
    modifies a
    ensures ok <==> FirstNonDict(old(a[..])) == a.Length
    ensures forall i :: 0 <= i < FirstNonDict(old(a[..])) ==> a[i] == DictRow(f(old(a[i]).d))
    ensures forall i :: FirstNonDict(old(a[..])) <= i < a.Length ==> a[i] == old(a[i])
  {
    ghost var before := a[..];
    var i := 0;
    while i < a.Length
      invariant 0 <= i <= a.Length
      invariant forall j :: 0 <= j < i ==> before[j].DictRow?
      invariant forall j :: 0 <= j < i ==> a[j] == DictRow(f(before[j].d))
      invariant forall j :: i <= j < a.Length ==> a[j] == before[j]
    {
      if a[i].NonDict? {
        FirstNonDictAt(before, i);
        return false;
      }
      a[i] := DictRow(f(a[i].d));
      i := i + 1;
    }
    FirstNonDictAt(before, i);
    ok := true;
  }
}
