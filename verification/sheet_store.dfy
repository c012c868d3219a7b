/**
 * The per-date sheet store of api.py: the version-checked full write
 * (update_daily_sheet), the memo row patch (patch_single_row) with the memo
 * queue it feeds, the forced restore from a JSON file, and the normalisers
 * those writes apply to list-valued cells.
 *
 * The store holds, per date, a version counter, the rows and the content hash.
 * Each write is specified by a function from the old store to the response and
 * the new store; the `Store` class performs the write step by step and is
 * proved to end in exactly that state.
 */
module SheetStore {
  import opened Wrappers
  import opened PyValues

  /** The memo column, the only one a row patch acts on. */
  const MemoColumn: string := "관리메모"
  /** Rows of this site never feed the memo queue. */
  const ExcludedSite: string := "E10"

  /** A row of a full-write payload, as the payload validator dumps it; the
      name and the phone may be absent. Cells other than the key fields, the
      name, the phone and the two list cells are carried in `others` unchanged. */
  datatype PayloadRow = PayloadRow(
    site: string,
    reservationDate: string,
    customerName: Option<string>,
    phone: Option<string>,
    manageMemo: PyVal,
    togetherSites: PyVal,
    others: map<string, PyVal>)

  /** A stored row of a date (table daily_sheet_rows). The name, the phone
      and the list cells are `None` when NULL, as a restored row without
      those columns leaves them. */
  datatype SheetRow = SheetRow(
    site: string,
    reservationDate: string,
    customerName: Option<string>,
    phone: Option<string>,
    manageMemo: Option<seq<string>>,
    togetherSites: Option<seq<string>>,
    others: map<string, PyVal>)

  /** The stored state of one date (table daily_sheets). */
  datatype Sheet = Sheet(version: int, rows: seq<SheetRow>, hash: Option<string>, e10: Option<bool>)

  /** A queued memo push (table memo_queue); its uuid and timestamps are not modelled. */
  datatype MemoTask = MemoTask(
    site: string,
    reservationDate: string,
    customerName: string,
    phone: string,
    memo: string,
    mode: string,
    status: string,
    tries: int)

  /** Everything the writes of this module read or change. */
  datatype StoreState = StoreState(sheets: map<string, Sheet>, queue: seq<MemoTask>)

  /** What `json.loads` makes of a text: it fails, or gives a list, or gives something else. */
  /** How the database reads a date text for the DATE key column: the
      canonical `YYYY-MM-DD` text of the date, or None when it cannot read it. */
  type DateReader = string -> Option<string>

  datatype JsonParse = Unparsable | JsonList(items: seq<PyVal>) | JsonOther

  // ---------------------------------------------------------------------------
  // The row key and the store invariant
  // ---------------------------------------------------------------------------

  /** Two rows with the same (site, reservation date): the key that is unique per date. */
  predicate SameKey(a: SheetRow, b: SheetRow) {
    a.site == b.site && a.reservationDate == b.reservationDate
  }

  predicate UniqueKeys(rows: seq<SheetRow>) {
    forall i, j :: 0 <= i < j < |rows| ==> !SameKey(rows[i], rows[j])
  }

  /** The store invariant: every version is at least 1 and every date's row keys are unique. */
  predicate ValidStore(st: StoreState) {
    forall d :: d in st.sheets ==> st.sheets[d].version >= 1 && UniqueKeys(st.sheets[d].rows)
  }

  // ---------------------------------------------------------------------------
  // Cell normalisers
  // ---------------------------------------------------------------------------

  /** The list normaliser of the full write: what it stores for a list cell. */
  function NormalizeListField(v: PyVal, parse: string -> JsonParse): (r: seq<string>)
    ensures v.PNone? ==> r == []
    ensures v.PList? ==> r == MapStr(v.items)
    ensures v.PStr? && (Strip(v.s) == "" || LowerAscii(Strip(v.s)) == "null") ==> r == []
    ensures v.PStr? && Strip(v.s) != "" && LowerAscii(Strip(v.s)) != "null" ==>
              match parse(Strip(v.s))
              case Unparsable => r == CleanLines(v.s)
              case JsonList(items) => r == MapStr(items)
              case JsonOther => r == [v.s]
    ensures !v.PNone? && !v.PList? && !v.PStr? ==> r == [Str(v)]
  {
    match v
    case PNone => []
    case PList(xs) => MapStr(xs)
    case PStr(raw) =>
      var s := Strip(raw);
      if s == "" || LowerAscii(s) == "null" then []
      else
        (match parse(s)
         case Unparsable => CleanLinesStrip(raw); CleanLines(s)
         case JsonList(items) => MapStr(items)
         // a text that parses to a non-list falls through to `[str(v)]`, untrimmed
         case JsonOther => [raw])
    case _ => [Str(v)]
  }

  /** A stored list cell, read back and normalised again, is unchanged. */
  lemma {:induction false} NormalizeListFieldOfStored(xs: seq<string>, parse: string -> JsonParse)
    ensures NormalizeListField(StrList(xs), parse) == xs
  {
    var r := NormalizeListField(StrList(xs), parse);
    assert |r| == |xs|;
    forall k | 0 <= k < |xs| ensures r[k] == xs[k] {
      assert StrList(xs).items[k] == PStr(xs[k]);
    }
  }

  /** The memo standardisation of the row patch: the non-blank trimmed
      elements of a list, nothing for `None`, otherwise the non-blank trimmed
      lines of `str(v)`. */
  function StdMemo(v: PyVal): (r: seq<string>)
    ensures v.PNone? ==> r == []
    ensures v.PList? ==> r == CleanParts(MapStr(v.items))
  {
    match v
    case PList(xs) => CleanParts(MapStr(xs))
    case PNone => []
    case _ =>
      var txt := Strip(Str(v));
      if '\n' in txt then CleanLines(txt)
      else if txt != "" then [txt] else []
  }

  /** The standardised memo never holds an empty or untrimmed line. */
  lemma {:induction false} StdMemoClean(v: PyVal)
    ensures Clean(StdMemo(v))
  {
    if v.PList? {
      CleanPartsClean(MapStr(v.items));
    } else if !v.PNone? {
      var txt := Strip(Str(v));
      if '\n' in txt {
        CleanLinesClean(txt);
      } else {
        StripClean(Str(v));
      }
    }
  }

  /** For any value other than `None` and a list, the standardised memo is
      exactly the non-blank trimmed lines of its text, whether or not the
      trimmed text holds a line break. */
  lemma {:induction false} StdMemoOfText(v: PyVal)
    requires !v.PNone? && !v.PList?
    ensures StdMemo(v) == CleanLines(Str(v))
  {
    var txt := Strip(Str(v));
    CleanLinesStrip(Str(v));
    if '\n' !in txt {
      CleanLinesSingle(txt);
      StripIdempotent(Str(v));
    }
  }

  lemma {:induction false} CleanPartsKeepAbsence(parts: seq<string>, c: char)
    requires forall i :: 0 <= i < |parts| ==> c !in parts[i]
    ensures forall i :: 0 <= i < |CleanParts(parts)| ==> c !in CleanParts(parts)[i]
  {
    if parts != [] {
      StripKeepsAbsence(parts[0], c);
      CleanPartsKeepAbsence(parts[1..], c);
    }
  }

  /** The memo text queued for a patch made with a text value splits on line
      breaks back into exactly the standardised memo lines. */
  lemma {:induction false} QueuedMemoSplitsBack(v: PyVal)
    requires !v.PNone? && !v.PList?
    requires StdMemo(v) != []
    ensures SplitOn(Join("\n", StdMemo(v)), '\n') == StdMemo(v)
  {
    StdMemoOfText(v);
    SplitOnPiecesLackSep(Str(v), '\n');
    CleanPartsKeepAbsence(SplitOn(Str(v), '\n'), '\n');
    SplitOnJoin(StdMemo(v), '\n');
  }

  // ---------------------------------------------------------------------------
  // Dates and row conversions
  // ---------------------------------------------------------------------------

  predicate IsDigit(c: char) { '0' <= c <= '9' }

  function DigitValue(c: char): nat
    requires IsDigit(c)
  {
    c as int - '0' as int
  }

  function DaysInMonth(year: int, month: int): int {
    if month == 2 then
      (if (year % 4 == 0 && year % 100 != 0) || year % 400 == 0 then 29 else 28)
    else if month == 4 || month == 6 || month == 9 || month == 11 then 30
    else 31
  }

  /** A text `date.fromisoformat` accepts in its `YYYY-MM-DD` form: a real calendar date. */
  predicate IsIsoDate(s: string) {
    && |s| == 10
    && s[4] == '-' && s[7] == '-'
    && IsDigit(s[0]) && IsDigit(s[1]) && IsDigit(s[2]) && IsDigit(s[3])
    && IsDigit(s[5]) && IsDigit(s[6]) && IsDigit(s[8]) && IsDigit(s[9])
    && var year := DigitValue(s[0]) * 1000 + DigitValue(s[1]) * 100 + DigitValue(s[2]) * 10 + DigitValue(s[3]);
       var month := DigitValue(s[5]) * 10 + DigitValue(s[6]);
       var day := DigitValue(s[8]) * 10 + DigitValue(s[9]);
       year >= 1 && 1 <= month <= 12 && 1 <= day <= DaysInMonth(year, month)
  }

  /** The stored row built from a payload row: the list cells go through the list normaliser. */
  function ToStoredRow(p: PayloadRow, parse: string -> JsonParse): SheetRow {
    SheetRow(p.site, p.reservationDate, p.customerName, p.phone,
             Some(NormalizeListField(p.manageMemo, parse)), Some(NormalizeListField(p.togetherSites, parse)), p.others)
  }

  function ToStored(rows: seq<PayloadRow>, parse: string -> JsonParse): (r: seq<SheetRow>)
    ensures |r| == |rows|
  {
    seq(|rows|, k requires 0 <= k < |rows| => ToStoredRow(rows[k], parse))
  }

  /** A stored list cell read back as a Python value: `None` for NULL. */
  function ListCell(c: Option<seq<string>>): PyVal {
    if c.None? then PNone else StrList(c.value)
  }

  /** A stored row as the patch serialises it for the content hash. */
  function RowDict(r: SheetRow): PayloadRow {
    PayloadRow(r.site, r.reservationDate, r.customerName, r.phone,
               ListCell(r.manageMemo), ListCell(r.togetherSites), r.others)
  }

  function RowDicts(rows: seq<SheetRow>): (r: seq<PayloadRow>)
    ensures |r| == |rows|
  {
    seq(|rows|, k requires 0 <= k < |rows| => RowDict(rows[k]))
  }

  // ---------------------------------------------------------------------------
  // Full write (update_daily_sheet)
  // ---------------------------------------------------------------------------

  /** The parsed request body of a full write. `date == ""` stands for a missing
      or empty date, `version == None` for a missing or null version, and
      `sheet == None` for a body the payload validator rejects. */
  datatype UpdateBody = UpdateBody(date: string, version: Option<int>, sheet: Option<seq<PayloadRow>>, e10: bool)

  datatype WriteResult =
    | Written(version: int, hash: string)
    | WriteRejected(status: int)
    | WriteConflict(currentVersion: int)

  /** The full write: `req == None` is a body that is not JSON. */
  function FullWrite(st: StoreState, req: Option<UpdateBody>, parse: string -> JsonParse,
                     hash: seq<PayloadRow> -> string): (StoreState, WriteResult)
  {
    if req.None? then (st, WriteRejected(400))
    else
      var b := req.value;
      if b.date == "" then (st, WriteRejected(400))
      else if b.version.None? then (st, WriteRejected(428))
      else if b.sheet.None? then (st, WriteRejected(422))
      else if !IsIsoDate(b.date) then (st, WriteRejected(400))
      else if b.date in st.sheets && st.sheets[b.date].version != b.version.value then
        (st, WriteConflict(st.sheets[b.date].version))
      else
        var stored := ToStored(b.sheet.value, parse);
        if !UniqueKeys(stored) then (st, WriteRejected(500))
        else
          var newVersion := if b.date in st.sheets then st.sheets[b.date].version + 1 else 1;
          var h := hash(b.sheet.value);
          (st.(sheets := st.sheets[b.date := Sheet(newVersion, stored, Some(h), Some(b.e10))]),
           Written(newVersion, h))
  }

  /** A well-formed full write: a body with a valid date, a version and a valid sheet. */
  predicate WellFormed(req: Option<UpdateBody>) {
    req.Some? && req.value.date != "" && req.value.version.Some? && req.value.sheet.Some?
    && IsIsoDate(req.value.date)
  }

  /** Rejections happen in the order of the source and change nothing. */
  lemma FullWriteRejections(st: StoreState, req: Option<UpdateBody>, parse: string -> JsonParse,
                            hash: seq<PayloadRow> -> string)
    requires !WellFormed(req)
    ensures FullWrite(st, req, parse, hash).0 == st
    ensures var res := FullWrite(st, req, parse, hash).1;
      if req.None? || req.value.date == "" then res == WriteRejected(400)
      else if req.value.version.None? then res == WriteRejected(428)
      else if req.value.sheet.None? then res == WriteRejected(422)
      else res == WriteRejected(400)
  {
  }

  /** A stale version on an existing date is refused with the stored version, and nothing changes. */
  lemma FullWriteConflict(st: StoreState, req: Option<UpdateBody>, parse: string -> JsonParse,
                          hash: seq<PayloadRow> -> string)
    requires WellFormed(req) && req.value.date in st.sheets
    requires st.sheets[req.value.date].version != req.value.version.value
    ensures FullWrite(st, req, parse, hash) == (st, WriteConflict(st.sheets[req.value.date].version))
  {
  }

  /** A well-formed write to a new date (any version) or carrying the stored
      version, whose rows have unique keys, is accepted: the version goes up
      by exactly one (a new date starts at 1), the date holds exactly the
      payload rows, the response reports the new version and hash, and no
      other date and not the queue change. */
  lemma FullWriteAccepted(st: StoreState, req: Option<UpdateBody>, parse: string -> JsonParse,
                          hash: seq<PayloadRow> -> string)
    requires WellFormed(req)
    requires req.value.date !in st.sheets || st.sheets[req.value.date].version == req.value.version.value
    requires UniqueKeys(ToStored(req.value.sheet.value, parse))
    ensures var (st', res) := FullWrite(st, req, parse, hash);
      var d := req.value.date;
      && d in st'.sheets
      && st'.sheets[d].version == (if d in st.sheets then st.sheets[d].version + 1 else 1)
      && st'.sheets[d].rows == ToStored(req.value.sheet.value, parse)
      && st'.sheets[d].hash == Some(hash(req.value.sheet.value))
      && res == Written(st'.sheets[d].version, hash(req.value.sheet.value))
      && st'.queue == st.queue
      && (forall d' :: d' != d ==> (d' in st'.sheets <==> d' in st.sheets))
      && (forall d' :: d' != d && d' in st.sheets ==> st'.sheets[d'] == st.sheets[d'])
  {
  }

  /** A payload whose rows repeat a (site, reservation date) key breaks the
      unique constraint at commit: the write fails and nothing changes. */
  lemma FullWriteDuplicateKeys(st: StoreState, req: Option<UpdateBody>, parse: string -> JsonParse,
                               hash: seq<PayloadRow> -> string)
    requires WellFormed(req)
    requires req.value.date !in st.sheets || st.sheets[req.value.date].version == req.value.version.value
    requires !UniqueKeys(ToStored(req.value.sheet.value, parse))
    ensures FullWrite(st, req, parse, hash) == (st, WriteRejected(500))
  {
  }

  /** Every full write keeps the store invariant. */
  lemma FullWritePreservesValid(st: StoreState, req: Option<UpdateBody>, parse: string -> JsonParse,
                                hash: seq<PayloadRow> -> string)
    requires ValidStore(st)
    ensures ValidStore(FullWrite(st, req, parse, hash).0)
  {
  }

  /** Two writers that read the same version: the first wins and moves the
      version on by one; the second is refused with the winner's version. */
  lemma {:induction false} SameVersionWritersOneWins(st: StoreState, a: Option<UpdateBody>, b: Option<UpdateBody>,
                                                     parse: string -> JsonParse, hash: seq<PayloadRow> -> string)
    requires WellFormed(a) && WellFormed(b)
    requires a.value.date == b.value.date && a.value.date in st.sheets
    requires a.value.version == b.value.version == Some(st.sheets[a.value.date].version)
    requires UniqueKeys(ToStored(a.value.sheet.value, parse))
    ensures var (st1, r1) := FullWrite(st, a, parse, hash);
      var (st2, r2) := FullWrite(st1, b, parse, hash);
      && r1 == Written(st.sheets[a.value.date].version + 1, hash(a.value.sheet.value))
      && r2 == WriteConflict(st.sheets[a.value.date].version + 1)
      && st2 == st1
  {
    var (st1, r1) := FullWrite(st, a, parse, hash);
    assert st1.sheets[a.value.date].version == st.sheets[a.value.date].version + 1;
  }

  // ---------------------------------------------------------------------------
  // Row patch (patch_single_row)
  // ---------------------------------------------------------------------------

  /** The `version` of a patch body as JSON gives it: missing or null, a
      number (an integer, or a float by its exact value), a boolean, or
      anything else (a text, a list, an object). */
  datatype VersionField = VNone | VNumber(value: real) | VBool(b: bool) | VOther

  /** The parsed body of a row patch. Empty texts stand for missing or empty
      fields; `version` is the JSON value as sent. */
  datatype PatchBody = PatchBody(
    date: string,
    version: VersionField,
    keySite: string,
    keyReservationDate: string,
    update: map<string, PyVal>)

  datatype PatchResult =
    | Patched(version: int, changedColumns: seq<string>)
    | PatchRejected(status: int)
    | PatchConflict(currentVersion: int)

  /** Python's `version != sheet.version` for the JSON value sent, negated:
      numbers compare by value (`3.0 == 3`), `True == 1` and `False == 0`,
      and no other value equals an integer. */
  predicate VersionMatches(v: VersionField, current: int) {
    match v
    case VNumber(x) => x == current as real
    case VBool(b) => (if b then 1 else 0) == current
    case _ => false
  }

  predicate RowHasKey(r: SheetRow, site: string, reservationDate: string) {
    r.site == site && r.reservationDate == reservationDate
  }

  /** The first row with the given key (the query's `.first()`). */
  function FindRow(rows: seq<SheetRow>, site: string, reservationDate: string): (r: Option<nat>)
    ensures r.Some? ==> r.value < |rows| && RowHasKey(rows[r.value], site, reservationDate)
    ensures r.Some? ==> forall j :: 0 <= j < r.value ==> !RowHasKey(rows[j], site, reservationDate)
    ensures r.None? ==> forall j :: 0 <= j < |rows| ==> !RowHasKey(rows[j], site, reservationDate)
  {
    if rows == [] then None
    else if RowHasKey(rows[0], site, reservationDate) then Some(0)
    else
      match FindRow(rows[1..], site, reservationDate)
      case None => None
      case Some(i) => Some(i + 1)
  }

  /** With unique keys the first matching row is the only one. */
  lemma FoundRowIsOnlyOne(rows: seq<SheetRow>, site: string, reservationDate: string)
    requires UniqueKeys(rows)
    requires FindRow(rows, site, reservationDate).Some?
    ensures forall j :: 0 <= j < |rows| && j != FindRow(rows, site, reservationDate).value ==>
              !RowHasKey(rows[j], site, reservationDate)
  {
    var i := FindRow(rows, site, reservationDate).value;
    forall j | 0 <= j < |rows| && j != i ensures !RowHasKey(rows[j], site, reservationDate) {
      if j > i {
        assert !SameKey(rows[i], rows[j]);
      }
    }
  }

  /** A queue entry can be stored for `row` only when its name and phone are
      set: both columns are NOT NULL in memo_queue. */
  predicate Queueable(row: SheetRow) {
    row.customerName.Some? && row.phone.Some?
  }

  /** The queue entry the patch adds for a memo edit of `row`. */
  function MemoTaskFor(row: SheetRow, memos: seq<string>): MemoTask
    requires Queueable(row)
  {
    MemoTask(row.site, row.reservationDate, row.customerName.value, row.phone.value,
             Join("\n", memos), "replace", "pending", 0)
  }

  /** The row patch: `req == None` is a body that is not JSON (an unhandled
      error). The sheet is looked up under the date the database reads from
      the date text; a text it cannot read makes the lookup raise. */
  function ApplyPatch(st: StoreState, req: Option<PatchBody>, readDate: DateReader, hash: seq<PayloadRow> -> string)
    : (StoreState, PatchResult)
  {
    if req.None? then (st, PatchRejected(500))
    else
      var b := req.value;
      if b.date == "" || b.version.VNone? then (st, PatchRejected(400))
      else if b.keySite == "" || b.keyReservationDate == "" then (st, PatchRejected(400))
      else if readDate(b.date).None? then (st, PatchRejected(500))
      else if readDate(b.date).value !in st.sheets then (st, PatchRejected(404))
      else
        var sheet := st.sheets[readDate(b.date).value];
        if !VersionMatches(b.version, sheet.version) then (st, PatchConflict(sheet.version))
        else
          match FindRow(sheet.rows, b.keySite, b.keyReservationDate)
          case None => (st, PatchRejected(404))
          case Some(i) =>
            if MemoColumn !in b.update then (st, Patched(sheet.version, []))
            else
              var row := sheet.rows[i];
              var memos := StdMemo(b.update[MemoColumn]);
              // the queue entry would break a NOT NULL column at flush or commit
              if row.site != ExcludedSite && !Queueable(row) then (st, PatchRejected(500))
              else
                var queue := if row.site == ExcludedSite then st.queue else st.queue + [MemoTaskFor(row, memos)];
                if row.manageMemo == Some(memos) then (st.(queue := queue), Patched(sheet.version, []))
                else
                  var rows := sheet.rows[i := row.(manageMemo := Some(memos))];
                  var sheet' := sheet.(version := sheet.version + 1, rows := rows, hash := Some(hash(RowDicts(rows))));
                  (StoreState(st.sheets[readDate(b.date).value := sheet'], queue), Patched(sheet.version + 1, [MemoColumn]))
  }

  /** A patch that names an existing row of an existing date, in a date text
      the database reads, with the current version. */
  predicate PatchReachesRow(st: StoreState, req: Option<PatchBody>, readDate: DateReader) {
    && req.Some?
    && req.value.date != "" && !req.value.version.VNone?
    && req.value.keySite != "" && req.value.keyReservationDate != ""
    && readDate(req.value.date).Some?
    && readDate(req.value.date).value in st.sheets
    && VersionMatches(req.value.version, st.sheets[readDate(req.value.date).value].version)
    && FindRow(st.sheets[readDate(req.value.date).value].rows, req.value.keySite, req.value.keyReservationDate).Some?
  }

  /** A memo patch outside the excluded site on a row whose name or phone is
      NULL: the queue entry it adds breaks memo_queue's NOT NULL columns. */
  predicate QueueInsertFails(st: StoreState, req: Option<PatchBody>, readDate: DateReader)
    requires PatchReachesRow(st, req, readDate)
  {
    var b := req.value;
    var rows := st.sheets[readDate(b.date).value].rows;
    var row := rows[FindRow(rows, b.keySite, b.keyReservationDate).value];
    MemoColumn in b.update && row.site != ExcludedSite && !Queueable(row)
  }

  /** The rejections of a patch, in the order of the source; none changes anything. */
  lemma PatchRejections(st: StoreState, req: Option<PatchBody>, readDate: DateReader, hash: seq<PayloadRow> -> string)
    requires !PatchReachesRow(st, req, readDate)
    ensures ApplyPatch(st, req, readDate, hash).0 == st
    ensures var res := ApplyPatch(st, req, readDate, hash).1;
      if req.None? then res == PatchRejected(500)
      else if req.value.date == "" || req.value.version.VNone? then res == PatchRejected(400)
      else if req.value.keySite == "" || req.value.keyReservationDate == "" then res == PatchRejected(400)
      else if readDate(req.value.date).None? then res == PatchRejected(500)
      else if readDate(req.value.date).value !in st.sheets then res == PatchRejected(404)
      else if !VersionMatches(req.value.version, st.sheets[readDate(req.value.date).value].version) then
        res == PatchConflict(st.sheets[readDate(req.value.date).value].version)
      else res == PatchRejected(404)
  {
  }

  /** Version and changed columns of a patch that reaches its row: a 500 with
      nothing applied when the queue entry cannot be stored; unchanged with no
      changed column when the update has no memo or the standardised memo
      equals the stored one; and otherwise one version up with the memo
      column reported and stored. */
  lemma PatchVersioning(st: StoreState, req: Option<PatchBody>, readDate: DateReader, hash: seq<PayloadRow> -> string)
    requires PatchReachesRow(st, req, readDate)
    ensures var b := req.value;
      var sheet := st.sheets[readDate(b.date).value];
      var i := FindRow(sheet.rows, b.keySite, b.keyReservationDate).value;
      var (st', res) := ApplyPatch(st, req, readDate, hash);
      if QueueInsertFails(st, req, readDate) then st' == st && res == PatchRejected(500)
      else if MemoColumn !in b.update || sheet.rows[i].manageMemo == Some(StdMemo(b.update[MemoColumn])) then
        && res == Patched(sheet.version, [])
        && st'.sheets == st.sheets
      else
        && res == Patched(sheet.version + 1, [MemoColumn])
        && st'.sheets.Keys == st.sheets.Keys
        && st'.sheets[readDate(b.date).value].version == sheet.version + 1
        && st'.sheets[readDate(b.date).value].rows == sheet.rows[i := sheet.rows[i].(manageMemo := Some(StdMemo(b.update[MemoColumn])))]
        && (forall d :: d in st.sheets && d != readDate(b.date).value ==> st'.sheets[d] == st.sheets[d])
  {
  }

  /** The memo queue after a patch that reaches its row: a memo update of a
      row outside the excluded site appends exactly one pending `replace`
      task with the joined standardised memo, whether or not the memo
      changed, unless the row's name or phone is NULL, when the request fails
      and the queue is unchanged; otherwise the queue is unchanged. */
  lemma PatchEnqueue(st: StoreState, req: Option<PatchBody>, readDate: DateReader, hash: seq<PayloadRow> -> string)
    requires PatchReachesRow(st, req, readDate)
    ensures var b := req.value;
      var row := st.sheets[readDate(b.date).value].rows[FindRow(st.sheets[readDate(b.date).value].rows, b.keySite, b.keyReservationDate).value];
      var q := ApplyPatch(st, req, readDate, hash).0.queue;
      if QueueInsertFails(st, req, readDate) then q == st.queue && ApplyPatch(st, req, readDate, hash).1 == PatchRejected(500)
      else if MemoColumn in b.update && row.site != ExcludedSite then
        && q == st.queue + [MemoTaskFor(row, StdMemo(b.update[MemoColumn]))]
        && q[|q| - 1].status == "pending" && q[|q| - 1].mode == "replace" && q[|q| - 1].tries == 0
        && q[|q| - 1].memo == Join("\n", StdMemo(b.update[MemoColumn]))
      else q == st.queue
  {
  }

  lemma {:induction false} UpdateKeepsUniqueKeys(rows: seq<SheetRow>, i: nat, r: SheetRow)
    requires UniqueKeys(rows) && i < |rows| && SameKey(rows[i], r)
    ensures UniqueKeys(rows[i := r])
  {
    var rows' := rows[i := r];
    forall a, b | 0 <= a < b < |rows'| ensures !SameKey(rows'[a], rows'[b]) {
      assert !SameKey(rows[a], rows[b]);
    }
  }

  /** Every patch keeps the store invariant. */
  lemma {:induction false} PatchPreservesValid(st: StoreState, req: Option<PatchBody>, readDate: DateReader, hash: seq<PayloadRow> -> string)
    requires ValidStore(st)
    ensures ValidStore(ApplyPatch(st, req, readDate, hash).0)
  {
    if PatchReachesRow(st, req, readDate) {
      var b := req.value;
      var sheet := st.sheets[readDate(b.date).value];
      var i := FindRow(sheet.rows, b.keySite, b.keyReservationDate).value;
      if MemoColumn in b.update {
        var row := sheet.rows[i];
        UpdateKeepsUniqueKeys(sheet.rows, i, row.(manageMemo := Some(StdMemo(b.update[MemoColumn]))));
      }
    }
  }

  /** Updating a row's memo does not move the first row of its key. */
  lemma {:induction false} FindRowAfterMemoUpdate(rows: seq<SheetRow>, site: string, reservationDate: string,
                                                  memos: Option<seq<string>>)
    requires FindRow(rows, site, reservationDate).Some?
    ensures var i := FindRow(rows, site, reservationDate).value;
      FindRow(rows[i := rows[i].(manageMemo := memos)], site, reservationDate) == Some(i)
  {
    var i := FindRow(rows, site, reservationDate).value;
    if i > 0 {
      assert FindRow(rows[1..], site, reservationDate) == Some(i - 1);
      FindRowAfterMemoUpdate(rows[1..], site, reservationDate, memos);
      assert rows[i := rows[i].(manageMemo := memos)][1..] == rows[1..][i - 1 := rows[i].(manageMemo := memos)];
    }
  }

  /** Patching twice with the same memo (the second time with the version the
      first returned) changes no sheet the second time: no changed column and
      no new version. The queue still grows again: a memo update outside the
      excluded site queues the same task a second time. A first patch whose
      queue entry cannot be stored fails with nothing applied. */
  lemma {:induction false} PatchIdempotent(st: StoreState, req: Option<PatchBody>, readDate: DateReader, hash: seq<PayloadRow> -> string)
    requires PatchReachesRow(st, req, readDate)
    ensures var (st1, r1) := ApplyPatch(st, req, readDate, hash);
      var b := req.value;
      var row := st.sheets[readDate(b.date).value].rows[FindRow(st.sheets[readDate(b.date).value].rows, b.keySite, b.keyReservationDate).value];
      if QueueInsertFails(st, req, readDate) then st1 == st && r1 == PatchRejected(500)
      else
      r1.Patched? &&
      var again := Some(b.(version := VNumber(r1.version as real)));
      var (st2, r2) := ApplyPatch(st1, again, readDate, hash);
      && r2 == Patched(r1.version, []) && st2.sheets == st1.sheets
      && st2.queue == (if MemoColumn in b.update && row.site != ExcludedSite
                       then st1.queue + [MemoTaskFor(row, StdMemo(b.update[MemoColumn]))]
                       else st1.queue)
  {
    var b := req.value;
    var sheet := st.sheets[readDate(b.date).value];
    var i := FindRow(sheet.rows, b.keySite, b.keyReservationDate).value;
    var (st1, r1) := ApplyPatch(st, req, readDate, hash);
    if !QueueInsertFails(st, req, readDate) {
      if MemoColumn in b.update && sheet.rows[i].manageMemo != Some(StdMemo(b.update[MemoColumn])) {
        FindRowAfterMemoUpdate(sheet.rows, b.keySite, b.keyReservationDate, Some(StdMemo(b.update[MemoColumn])));
      }
      var again := Some(b.(version := VNumber(r1.version as real)));
      assert PatchReachesRow(st1, again, readDate);
      PatchEnqueue(st1, again, readDate, hash);
    }
  }

  /** A row whose memo cell is NULL (as a restore can leave it) is changed by
      every memo patch, even one that standardises to the empty memo: the
      stored `None` never equals the standardised list. (A row outside the
      excluded site whose name or phone is NULL fails first.) */
  lemma PatchOfNullMemoChanges(st: StoreState, req: Option<PatchBody>, readDate: DateReader, hash: seq<PayloadRow> -> string)
    requires PatchReachesRow(st, req, readDate) && MemoColumn in req.value.update
    requires var rows := st.sheets[readDate(req.value.date).value].rows;
      rows[FindRow(rows, req.value.keySite, req.value.keyReservationDate).value].manageMemo.None?
    ensures ApplyPatch(st, req, readDate, hash).1 ==
      if QueueInsertFails(st, req, readDate) then PatchRejected(500)
      else Patched(st.sheets[readDate(req.value.date).value].version + 1, [MemoColumn])
  {
  }

  // ---------------------------------------------------------------------------
  // Restore from a JSON file (restore_daily_sheet_from_json)
  // ---------------------------------------------------------------------------

  /** What reading the restore file gave: no file, an unreadable file, or the
      file's date (empty when absent) and rows. */
  datatype RestoreFile = FileMissing | FileUnreadable | FileLoaded(fileDate: string, rows: seq<SheetRow>)

  datatype RestoreResult = Restored(version: int, inserted: nat) | RestoreRejected(status: int)

  /** The restore: no version check; the version goes up by one from the stored
      one (a new date starts from 0), the rows are replaced (`force`) or added
      to, and the content hash is not recomputed. The sheet is the one under
      the date the database reads from the date text; a text it cannot read
      fails inside the transaction and is rolled back. */
  function ApplyRestore(st: StoreState, date: string, file: RestoreFile, force: bool, readDate: DateReader)
    : (StoreState, RestoreResult)
  {
    match file
    case FileMissing => (st, RestoreRejected(404))
    case FileUnreadable => (st, RestoreRejected(400))
    case FileLoaded(fileDate, rows) =>
      if fileDate != "" && fileDate != date then (st, RestoreRejected(400))
      else if readDate(date).None? then (st, RestoreRejected(500))
      else
        var d := readDate(date).value;
        var base := if d in st.sheets then st.sheets[d] else Sheet(0, [], None, None);
        var newRows := (if force then [] else base.rows) + rows;
        if !UniqueKeys(newRows) then (st, RestoreRejected(500))
        else
          var sheet := base.(version := base.version + 1, rows := newRows);
          (st.(sheets := st.sheets[d := sheet]), Restored(sheet.version, |rows|))
  }

  /** A restore goes through when the file was read, its date is absent or
      matches, the database reads the date text, and the resulting rows keep
      unique keys; nothing else is checked. */
  predicate RestoreGoesThrough(st: StoreState, date: string, file: RestoreFile, force: bool, readDate: DateReader) {
    && file.FileLoaded?
    && (file.fileDate == "" || file.fileDate == date)
    && readDate(date).Some?
    && var k := readDate(date).value;
       UniqueKeys((if force || k !in st.sheets then [] else st.sheets[k].rows) + file.rows)
  }

  /** A restore that goes through bumps the version of the date the database
      reads, whatever the version was (there is no version check), reports the
      rows inserted, keeps the stored hash as it was (none for a new date),
      and keeps the store invariant. */
  lemma RestoreBumpsVersion(st: StoreState, date: string, file: RestoreFile, force: bool, readDate: DateReader)
    requires ValidStore(st)
    requires RestoreGoesThrough(st, date, file, force, readDate)
    ensures var (st', res) := ApplyRestore(st, date, file, force, readDate);
      var k := readDate(date).value;
      && ValidStore(st')
      && st'.sheets[k].version == (if k in st.sheets then st.sheets[k].version else 0) + 1
      && res == Restored(st'.sheets[k].version, |file.rows|)
      && st'.sheets[k].hash == (if k in st.sheets then st.sheets[k].hash else None)
      && st'.sheets[k].rows == (if force || k !in st.sheets then [] else st.sheets[k].rows) + file.rows
      && st'.queue == st.queue
      && (forall d :: d != k ==> (d in st'.sheets <==> d in st.sheets))
      && (forall d :: d != k && d in st.sheets ==> st'.sheets[d] == st.sheets[d])
  {
  }

  /** The refusals of a restore, in the order of the source: no file gives
      404, an unreadable file 400, a file for another date 400; a date text
      the database cannot read, and rows that repeat a (site, reservation
      date) key, fail inside the transaction with 500. None changes the store. */
  lemma RestoreRejections(st: StoreState, date: string, file: RestoreFile, force: bool, readDate: DateReader)
    requires !RestoreGoesThrough(st, date, file, force, readDate)
    ensures ApplyRestore(st, date, file, force, readDate).0 == st
    ensures var res := ApplyRestore(st, date, file, force, readDate).1;
      if file.FileMissing? then res == RestoreRejected(404)
      else if file.FileUnreadable? then res == RestoreRejected(400)
      else if file.fileDate != "" && file.fileDate != date then res == RestoreRejected(400)
      else res == RestoreRejected(500)
  {
  }

  /** Two spellings of a date that the database reads as the same date name
      the same sheet: a patch and a restore behave alike under either. */
  lemma DateSpellingsAgree(st: StoreState, req: PatchBody, other: string, file: RestoreFile, force: bool,
                           readDate: DateReader, hash: seq<PayloadRow> -> string)
    requires req.date != "" && other != "" && readDate(other) == readDate(req.date)
    requires file.FileLoaded? ==> file.fileDate == ""
    ensures ApplyPatch(st, Some(req.(date := other)), readDate, hash) == ApplyPatch(st, Some(req), readDate, hash)
    ensures ApplyRestore(st, other, file, force, readDate) == ApplyRestore(st, req.date, file, force, readDate)
  {
  }

  // ---------------------------------------------------------------------------
  // The store as the service holds it
  // ---------------------------------------------------------------------------

  class Store {
    var sheets: map<string, Sheet>
    var queue: seq<MemoTask>
    /** `json.loads`, as the list normaliser uses it. */
    const parse: string -> JsonParse
    /** `compute_sheet_hash`. */
    const hash: seq<PayloadRow> -> string
    /** How the database reads a date text for the DATE key column. */
    const readDate: DateReader

    function State(): StoreState
      reads this
    {
      StoreState(sheets, queue)
    }

    ghost predicate Valid()
      reads this
    {
      ValidStore(State())
    }

    constructor (parse: string -> JsonParse, hash: seq<PayloadRow> -> string, readDate: DateReader)
      ensures Valid() && sheets == map[] && queue == []
      ensures this.parse == parse && this.hash == hash && this.readDate == readDate
    {
      this.sheets := map[];
      this.queue := [];
      this.parse := parse;
      this.hash := hash;
      this.readDate := readDate;
    }

    /** `update_daily_sheet`. */
    method UpdateDailySheet(req: Option<UpdateBody>) returns (res: WriteResult)
      requires Valid()
      modifies this
      ensures Valid()
      ensures (State(), res) == FullWrite(old(State()), req, parse, hash)
    {
      FullWritePreservesValid(State(), req, parse, hash);
      if req.None? { return WriteRejected(400); }
      var b := req.value;
      if b.date == "" { return WriteRejected(400); }
      if b.version.None? { return WriteRejected(428); }
      if b.sheet.None? { return WriteRejected(422); }
      if !IsIsoDate(b.date) { return WriteRejected(400); }
      var newVersion := 1;
      if b.date in sheets {
        var current := sheets[b.date];
        if current.version != b.version.value {
          return WriteConflict(current.version);
        }
        newVersion := current.version + 1;
      }
      // the date's rows are deleted, then every payload row is inserted
      var payload := b.sheet.value;
      var stored: seq<SheetRow> := [];
      var i := 0;
      while i < |payload|
        invariant 0 <= i <= |payload|
        invariant stored == ToStored(payload[..i], parse)
      {
        stored := stored + [ToStoredRow(payload[i], parse)];
        i := i + 1;
      }
      assert payload[..i] == payload;
      // the unique constraint is checked when the transaction commits
      if !UniqueKeys(stored) { return WriteRejected(500); }
      var h := hash(payload);
      sheets := sheets[b.date := Sheet(newVersion, stored, Some(h), Some(b.e10))];
      res := Written(newVersion, h);
    }

    /** `patch_single_row`. */
    method PatchSingleRow(req: Option<PatchBody>) returns (res: PatchResult)
      requires Valid()
      modifies this
      ensures Valid()
      ensures (State(), res) == ApplyPatch(old(State()), req, readDate, hash)
    {
      PatchPreservesValid(State(), req, readDate, hash);
      if req.None? { return PatchRejected(500); }
      var b := req.value;
      if b.date == "" || b.version.VNone? { return PatchRejected(400); }
      if b.keySite == "" || b.keyReservationDate == "" { return PatchRejected(400); }
      var day := readDate(b.date);
      if day.None? { return PatchRejected(500); }
      if day.value !in sheets { return PatchRejected(404); }
      var sheet := sheets[day.value];
      if !VersionMatches(b.version, sheet.version) { return PatchConflict(sheet.version); }
      var found := FindRow(sheet.rows, b.keySite, b.keyReservationDate);
      if found.None? { return PatchRejected(404); }
      var i := found.value;
      if MemoColumn !in b.update { return Patched(sheet.version, []); }
      var row := sheet.rows[i];
      var memos := StdMemo(b.update[MemoColumn]);
      // the queue entry would break a NOT NULL column; nothing is committed
      if row.site != ExcludedSite && !Queueable(row) { return PatchRejected(500); }
      var changed := row.manageMemo != Some(memos);
      if changed {
        sheet := sheet.(rows := sheet.rows[i := row.(manageMemo := Some(memos))]);
      }
      // the queue entry is added whether or not the memo changed
      if row.site != ExcludedSite {
        queue := queue + [MemoTaskFor(row, memos)];
      }
      if changed {
        sheet := sheet.(version := sheet.version + 1, hash := Some(hash(RowDicts(sheet.rows))));
        sheets := sheets[day.value := sheet];
        return Patched(sheet.version, [MemoColumn]);
      }
      res := Patched(sheet.version, []);
    }

    /** `restore_daily_sheet_from_json`, once the file has been read. */
    method RestoreFromJson(date: string, file: RestoreFile, force: bool) returns (res: RestoreResult)
      requires Valid()
      modifies this
      ensures Valid()
      ensures (State(), res) == ApplyRestore(old(State()), date, file, force, readDate)
    {
      if file.FileMissing? { return RestoreRejected(404); }
      if file.FileUnreadable? { return RestoreRejected(400); }
      if file.fileDate != "" && file.fileDate != date { return RestoreRejected(400); }
      var day := readDate(date);
      if day.None? { return RestoreRejected(500); }
      var sheet := if day.value in sheets then sheets[day.value] else Sheet(0, [], None, None);
      var rows := if force then [] else sheet.rows;
      sheet := sheet.(version := sheet.version + 1);
      var inserted := 0;
      while inserted < |file.rows|
        invariant 0 <= inserted <= |file.rows|
        invariant rows == (if force then [] else (if day.value in sheets then sheets[day.value].rows else [])) + file.rows[..inserted]
      {
        rows := rows + [file.rows[inserted]];
        inserted := inserted + 1;
      }
      assert file.rows[..inserted] == file.rows;
      if !UniqueKeys(rows) { return RestoreRejected(500); }
      sheets := sheets[day.value := sheet.(rows := rows)];
      res := Restored(sheet.version, inserted);
    }
  }
}
