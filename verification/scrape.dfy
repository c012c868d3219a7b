/**
 * The statable parts of day.py's scraping: the classification of one
 * reservation table row from its cell texts (`extract_reservation_data`),
 * and the stability counter of `wait_for_next_day_table`. The browser is
 * replaced by its observations: cell texts for the classification, and for
 * the wait one observation per loop turn before the deadline.
 */
module Scrape {
  import opened Wrappers
  import opened PyValues
  import opened DayRows

  const DogZone: string := "애견존"
  const Included: string := "포함"
  const InUse: string := "이용중"
  const CheckIn: string := "체크인"
  const CheckOut: string := "체크아웃"

  /** `pat in s` for strings. */
  predicate Contains(s: string, pat: string)
    decreases |s|
  {
    |s| >= |pat| && (s[..|pat|] == pat || (s != [] && Contains(s[1..], pat)))
  }

  /** `s.replace(pat, "")`: occurrences are removed left to right without overlap. */
  function RemoveAll(s: string, pat: string): (r: string)
    requires pat != []
    ensures |r| <= |s|
    ensures forall c :: c in r ==> c in s
    decreases |s|
  {
    if |s| < |pat| then s
    else if s[..|pat|] == pat then RemoveAll(s[|pat|..], pat)
    else [s[0]] + RemoveAll(s[1..], pat)
  }

  /** A text without the pattern is left as it is. */
  lemma {:induction false} RemoveAllWithoutMatch(s: string, pat: string)
    requires pat != []
    requires !Contains(s, pat)
    ensures RemoveAll(s, pat) == s
    decreases |s|
  {
    if |s| >= |pat| {
      RemoveAllWithoutMatch(s[1..], pat);
    }
  }

  /** One pass does not remove every occurrence: removing the inner `애견존`
      of `애애견존견존` joins the rest into a new one. */
  lemma RemoveAllCanLeaveMatch()
    ensures RemoveAll("애애견존견존", DogZone) == DogZone
  {
    var s := "애애견존견존";
    assert s[..3] != DogZone by {
      assert s[1] == '애' && DogZone[1] == '견';
    }
    assert s[1..] == "애견존견존";
    assert s[1..][..3] == DogZone;
    assert s[1..][3..] == "견존";
    assert RemoveAll("견존", DogZone) == "견존";
  }

  /** The last piece of `s.split('>')`. */
  function LastPiece(s: string): string {
    var parts := SplitOn(s, '>');
    parts[|parts| - 1]
  }

  /** The site column: the text after the last `>` (or all of it), with
      `애견존` removed and the result trimmed. */
  function SiteOf(cell: string): string {
    var raw := Strip(cell);
    Strip(RemoveAll(if '>' in raw then LastPiece(raw) else raw, DogZone))
  }

  /** The site is trimmed and holds no `>`. */
  lemma SiteOfClean(cell: string)
    ensures '>' !in SiteOf(cell) && Trimmed(SiteOf(cell))
  {
    var raw := Strip(cell);
    var part := if '>' in raw then LastPiece(raw) else raw;
    SplitOnPiecesLackSep(raw, '>');
    if '>' in raw {
      assert '>' !in LastPiece(raw);
    }
    assert '>' !in part;
    StripKeepsAbsence(RemoveAll(part, DogZone), '>');
    StripClean(RemoveAll(part, DogZone));
  }

  lemma {:induction false} StripLeftPrefix(a: string, b: string)
    requires !AllSpace(a)
    ensures StripLeft(a + b) == StripLeft(a) + b
    decreases |a|
  {
    if IsSpace(a[0]) {
      assert (a + b)[1..] == a[1..] + b;
      StripLeftPrefix(a[1..], b);
    }
  }

  lemma {:induction false} StripRightAppend(a: string, b: string)
    requires a != [] && !IsSpace(a[|a| - 1])
    ensures StripRight(a + b) == a + StripRight(b)
    decreases |b|
  {
    if b == [] {
      assert a + b == a;
    } else if IsSpace(b[|b| - 1]) {
      assert (a + b)[..|a + b| - 1] == a + b[..|b| - 1];
      StripRightAppend(a, b[..|b| - 1]);
    }
  }

  lemma {:induction false} SplitOnWithoutSep(u: string, sep: char)
    requires sep !in u
    ensures SplitOn(u, sep) == [u]
    decreases |u|
  {
    if u != [] {
      SplitOnWithoutSep(u[1..], sep);
      assert [u[0]] + u[1..] == u;
    }
  }

  lemma {:induction false} LastPieceAfterSep(q: string, u: string, sep: char)
    requires q != [] && q[|q| - 1] == sep
    requires sep !in u
    ensures var parts := SplitOn(q + u, sep); |parts| >= 2 && parts[|parts| - 1] == u
    decreases |q|
  {
    assert (q + u)[1..] == q[1..] + u;
    if |q| == 1 {
      SplitOnWithoutSep(u, sep);
    } else {
      LastPieceAfterSep(q[1..], u, sep);
    }
  }

  /** Whatever precedes the last `>`, the site is taken from what follows it. */
  lemma {:induction false} SiteAfterLastArrow(p: string, t: string)
    requires '>' !in t
    ensures SiteOf(p + ">" + t) == Strip(RemoveAll(StripRight(t), DogZone))
  {
    var a := p + ">";
    assert !AllSpace(a) by {
      assert a[|a| - 1] == '>';
    }
    StripLeftPrefix(a, t);
    var q := StripLeft(a);
    StripLeftFacts(a);
    assert q == a[|a| - |q|..];
    assert q != [] && q[|q| - 1] == '>';
    assert p + ">" + t == a + t;
    StripRightAppend(q, t);
    assert Strip(p + ">" + t) == q + StripRight(t);
    StripRightFacts(t);
    assert '>' !in StripRight(t);
    LastPieceAfterSep(q, StripRight(t), '>');
    assert '>' in q + StripRight(t) by {
      assert (q + StripRight(t))[|q| - 1] == '>';
    }
  }

  /** The status column: the first of 이용중, 체크인, 체크아웃 the text contains, else empty. */
  function StatusOf(text: string): string {
    if Contains(text, InUse) then InUse
    else if Contains(text, CheckIn) then CheckIn
    else if Contains(text, CheckOut) then CheckOut
    else ""
  }

  /** The status is one of the four; a named status occurs in the text, and
      the status is empty exactly when none of the three does. */
  lemma StatusOfNames(text: string)
    ensures StatusOf(text) in [InUse, CheckIn, CheckOut, ""]
    ensures StatusOf(text) != "" ==> Contains(text, StatusOf(text))
    ensures StatusOf(text) == "" <==>
              !Contains(text, InUse) && !Contains(text, CheckIn) && !Contains(text, CheckOut)
  {
  }

  /** The precedence: a text naming both `이용중` and a check-in or check-out is in use. */
  lemma StatusPrecedence(text: string)
    ensures Contains(text, InUse) ==> StatusOf(text) == InUse
    ensures !Contains(text, InUse) && Contains(text, CheckIn) ==> StatusOf(text) == CheckIn
    ensures !Contains(text, InUse) && !Contains(text, CheckIn) && Contains(text, CheckOut) ==> StatusOf(text) == CheckOut
  {
  }

  /** One cell's text: `포함` removed, then trimmed. */
  function CellText(cell: string): string {
    Strip(RemoveAll(cell, Included))
  }

  lemma CellTextTrimmed(cell: string)
    ensures Trimmed(CellText(cell))
  {
    StripClean(RemoveAll(cell, Included));
  }

  const HeaderKeys: seq<string> :=
    ["사이트", "상태", "고객명", "연락처", "예약 인원", "차량", "예약일",
     "현장결제 금액", "선결제 금액", "총 이용료", "관리메모", "요청사항"]

  /** The row dict built from the site, the status and the cell texts. */
  function RowDict(site: string, status: string, t: seq<string>): Dict
    requires |t| >= 11
  {
    map k | k in HeaderKeys :: if k == MemoKey then PList([]) else PStr(ColumnText(k, site, status, t))
  }

  /** The text the row dict holds under a text column: cells 2 to 8 and 10
      in header order, and an empty request. */
  function ColumnText(k: string, site: string, status: string, t: seq<string>): string
    requires |t| >= 11
  {
    if k == "사이트" then site
    else if k == "상태" then status
    else if k == "고객명" then t[2]
    else if k == "연락처" then t[3]
    else if k == "예약 인원" then t[4]
    else if k == "차량" then t[5]
    else if k == "예약일" then t[6]
    else if k == "현장결제 금액" then t[7]
    else if k == "선결제 금액" then t[8]
    else if k == "총 이용료" then t[10]
    else ""
  }

  /** The row dict of a table row of at least 11 cells; shorter rows are skipped.
      Column 9 is not read, and the site comes from the raw first cell. */
  function ClassifyRow(cells: seq<string>): (r: Option<Dict>)
    ensures r.Some? <==> |cells| >= 11
    ensures r.Some? ==> ShapedRow(r.value)
  {
    if |cells| < 11 then None
    else
      RowOfCellsShape(cells);
      Some(RowDict(SiteOf(cells[0]), StatusOf(CellTexts(cells)[1]), CellTexts(cells)))
  }

  /** The texts of the cells: `포함` removed, then trimmed. */
  function CellTexts(cells: seq<string>): (t: seq<string>)
    ensures |t| == |cells|
    decreases |cells|
  {
    if cells == [] then [] else [CellText(cells[0])] + CellTexts(cells[1..])
  }

  lemma {:induction false} CellTextsAt(cells: seq<string>, i: nat)
    requires i < |cells|
    ensures CellTexts(cells)[i] == CellText(cells[i])
    decreases |cells|
  {
    if i > 0 {
      CellTextsAt(cells[1..], i - 1);
    }
  }

  lemma {:induction false} CellTextsTrimmed(cells: seq<string>)
    ensures forall i :: 0 <= i < |cells| ==> Trimmed(CellTexts(cells)[i])
    decreases |cells|
  {
    if cells != [] {
      CellTextTrimmed(cells[0]);
      CellTextsTrimmed(cells[1..]);
    }
  }

  /** The shape of a classified row: exactly the table's twelve headers; the
      memo is the empty list and every other column is trimmed text, the site
      free of `>` and the status one of the four. */
  ghost predicate ShapedRow(d: Dict) {
    && (forall k :: k in d <==> k in HeaderKeys)
    && MemoKey in d && d[MemoKey] == PList([])
    && (forall k :: k in d && k != MemoKey ==> d[k].PStr? && Trimmed(d[k].s))
    && "사이트" in d && '>' !in d["사이트"].s
    && "상태" in d && d["상태"].s in [InUse, CheckIn, CheckOut, ""]
  }

  lemma RowDictShape(site: string, status: string, t: seq<string>)
    requires |t| >= 11 && Trimmed(site) && '>' !in site
    requires status in [InUse, CheckIn, CheckOut, ""]
    requires forall i :: 0 <= i < |t| ==> Trimmed(t[i])
    ensures ShapedRow(RowDict(site, status, t))
  {
    var d := RowDict(site, status, t);
    assert HeaderKeys[0] == "사이트" && HeaderKeys[1] == "상태" && HeaderKeys[10] == MemoKey;
    StatusTrimmed(status);
    forall k | k in d && k != MemoKey ensures d[k].PStr? && Trimmed(d[k].s) {
      ColumnTextTrimmed(k, site, status, t);
    }
    assert "상태" != "사이트" by {
      assert "상태"[0] != "사이트"[0];
    }
    assert d["사이트"] == PStr(site) && d["상태"] == PStr(status);
  }

  lemma StatusTrimmed(status: string)
    requires status in [InUse, CheckIn, CheckOut, ""]
    ensures Trimmed(status)
  {
  }

  lemma ColumnTextTrimmed(k: string, site: string, status: string, t: seq<string>)
    requires |t| >= 11 && Trimmed(site) && Trimmed(status)
    requires forall i :: 0 <= i < |t| ==> Trimmed(t[i])
    ensures Trimmed(ColumnText(k, site, status, t))
  {
  }

  lemma {:induction false} RowOfCellsShape(cells: seq<string>)
    requires |cells| >= 11
    ensures ShapedRow(RowDict(SiteOf(cells[0]), StatusOf(CellTexts(cells)[1]), CellTexts(cells)))
  {
    var t := CellTexts(cells);
    SiteOfClean(cells[0]);
    CellTextsTrimmed(cells);
    StatusOfNames(t[1]);
    RowDictShape(SiteOf(cells[0]), StatusOf(t[1]), t);
  }

  /** Text `strip()` leaves as it is (StripOfClean). */
  predicate Trimmed(s: string) {
    s == [] || IsCleanText(s)
  }

  // ---------------------------------------------------------------------------
  // The stability counter of wait_for_next_day_table
  // ---------------------------------------------------------------------------

  const StableChecks: nat := 2

  /** What one loop turn sees: a spinner; no table, and whether the body text
      shows an empty-day pattern; or a table with its signature (None when it
      could not be computed), its row count and the empty-pattern flag. */
  datatype Observation =
    | Spinner
    | NoTable(emptyText: bool)
    | Table(sig: Option<string>, rowCount: nat, emptyText: bool)

  datatype WaitStatus = Ready | Empty | Failed

  /** The status and the index of the observation that decided it
      (the number of observations when the deadline passed). */
  datatype Decision = Decision(status: WaitStatus, at: nat)

  /** `last_row_count`, `stable_count` and `last_sig`. */
  datatype Counter = Counter(lastCount: Option<nat>, stable: nat, lastSig: Option<string>)

  const Fresh: Counter := Counter(None, 0, None)

  /** A table observation that reaches the counter: a new signature and not an empty day. */
  predicate Counted(o: Observation, prev: Option<string>) {
    o.Table? && o.sig != prev && !(o.rowCount == 0 && o.emptyText)
  }

  /** One counter update. */
  function Count(c: Counter, o: Observation): Counter
    requires o.Table?
  {
    if c.lastCount.None? then Counter(Some(o.rowCount), 1, o.sig)
    else if o.rowCount == c.lastCount.value && o.sig == c.lastSig then c.(stable := c.stable + 1)
    else Counter(Some(o.rowCount), 1, o.sig)
  }

  /** The loop from observation i on with counter c; `extracted` says whether
      the table extraction succeeds when the counter settles. */
  function WaitFrom(obs: seq<Observation>, i: nat, c: Counter, prev: Option<string>, extracted: bool): Decision
    requires i <= |obs|
    decreases |obs| - i
  {
    if i == |obs| then Decision(Failed, i)
    else
      var o := obs[i];
      if o.Spinner? then WaitFrom(obs, i + 1, c, prev, extracted)
      else if o.NoTable? then
        if o.emptyText then Decision(Empty, i) else WaitFrom(obs, i + 1, c, prev, extracted)
      else if o.sig == prev then WaitFrom(obs, i + 1, c, prev, extracted)
      else if o.rowCount == 0 && o.emptyText then Decision(Empty, i)
      else
        var c2 := Count(c, o);
        if c2.stable >= StableChecks then Decision(if extracted then Ready else Failed, i)
        else WaitFrom(obs, i + 1, c2, prev, extracted)
  }

  function Wait(obs: seq<Observation>, prev: Option<string>, extracted: bool): Decision {
    WaitFrom(obs, 0, Fresh, prev, extracted)
  }

  /** The index of the latest counted observation before k. */
  function LastCounted(obs: seq<Observation>, k: nat, prev: Option<string>): (r: Option<nat>)
    requires k <= |obs|
    ensures r.Some? ==> r.value < k && Counted(obs[r.value], prev)
    ensures r.Some? ==> forall j :: r.value < j < k ==> !Counted(obs[j], prev)
    ensures r.None? ==> forall j :: 0 <= j < k ==> !Counted(obs[j], prev)
    decreases k
  {
    if k == 0 then None
    else if Counted(obs[k - 1], prev) then Some(k - 1)
    else LastCounted(obs, k - 1, prev)
  }

  /** What the counter holds before turn i: nothing before any counted
      observation, else the row count and signature of the latest one. */
  predicate Tracks(obs: seq<Observation>, i: nat, c: Counter, prev: Option<string>)
    requires i <= |obs|
  {
    match LastCounted(obs, i, prev)
    case None => c.lastCount.None?
    case Some(l) =>
      c.lastCount == Some(obs[l].rowCount) && c.lastSig == obs[l].sig && 1 <= c.stable < StableChecks
  }

  /** Observation k decides the wait: an empty-day pattern with no table or
      with an empty table of a new signature, or a counted table agreeing in
      row count and signature with the latest counted one before it. */
  predicate Decides(obs: seq<Observation>, k: nat, prev: Option<string>)
    requires k < |obs|
  {
    || obs[k] == NoTable(true)
    || (obs[k].Table? && obs[k].sig != prev && obs[k].rowCount == 0 && obs[k].emptyText)
    || (Counted(obs[k], prev) && LastCounted(obs, k, prev).Some?
        && obs[LastCounted(obs, k, prev).value].rowCount == obs[k].rowCount
        && obs[LastCounted(obs, k, prev).value].sig == obs[k].sig)
  }

  /** The decision is reached at the first observation from i on that
      decides: an empty-day pattern, or a counted table agreeing with the
      latest counted one before it; with the deadline passed when none does. */
  lemma {:induction false} WaitFromDecides(obs: seq<Observation>, i: nat, c: Counter, prev: Option<string>, extracted: bool)
    requires i <= |obs| && Tracks(obs, i, c, prev)
    ensures var d := WaitFrom(obs, i, c, prev, extracted);
      && i <= d.at <= |obs|
      && (d.at == |obs| ==> d.status == Failed)
      && (d.status == Empty ==>
            d.at < |obs|
            && (obs[d.at] == NoTable(true)
                || (obs[d.at].Table? && obs[d.at].sig != prev && obs[d.at].rowCount == 0 && obs[d.at].emptyText)))
      && (d.at < |obs| && d.status != Empty ==>
            Counted(obs[d.at], prev) && LastCounted(obs, d.at, prev).Some?
            && obs[LastCounted(obs, d.at, prev).value].rowCount == obs[d.at].rowCount
            && obs[LastCounted(obs, d.at, prev).value].sig == obs[d.at].sig
            && d.status == (if extracted then Ready else Failed))
      && (d.at < |obs| ==> Decides(obs, d.at, prev))
      && (forall j :: i <= j < d.at ==> !Decides(obs, j, prev))
    decreases |obs| - i
  {
    if i < |obs| {
      var o := obs[i];
      if o.Spinner? || (o.NoTable? && !o.emptyText) || (o.Table? && o.sig == prev) {
        assert !Counted(o, prev);
        assert LastCounted(obs, i + 1, prev) == LastCounted(obs, i, prev);
        WaitFromDecides(obs, i + 1, c, prev, extracted);
      } else if o.Table? && !(o.rowCount == 0 && o.emptyText) {
        var c2 := Count(c, o);
        assert Counted(o, prev);
        assert LastCounted(obs, i + 1, prev) == Some(i);
        if c2.stable < StableChecks {
          WaitFromDecides(obs, i + 1, c2, prev, extracted);
        }
      }
    }
  }

  /** The result is ready only after two counted tables in a row agree on
      their row count and signature, that signature differing from the
      previous day's; an empty result comes from an empty-day pattern. */
  lemma ReadyAfterTwoAgreeingTables(obs: seq<Observation>, prev: Option<string>, extracted: bool)
    ensures var d := Wait(obs, prev, extracted);
      && (d.status == Ready ==>
            d.at < |obs| && Counted(obs[d.at], prev) && LastCounted(obs, d.at, prev).Some?
            && obs[LastCounted(obs, d.at, prev).value].rowCount == obs[d.at].rowCount
            && obs[LastCounted(obs, d.at, prev).value].sig == obs[d.at].sig
            && obs[d.at].sig != prev)
      && (d.status == Ready ==> extracted)
      && (d.status == Empty ==> d.at < |obs| && (obs[d.at].NoTable? || (obs[d.at].Table? && obs[d.at].rowCount == 0)))
  {
    assert LastCounted(obs, 0, prev).None?;
    WaitFromDecides(obs, 0, Fresh, prev, extracted);
  }

  /** The wait stops at the first observation that decides it: an empty-day
      pattern gives Empty there, and an agreeing counted table gives the
      extraction's result there. */
  lemma WaitStopsAtFirstDecider(obs: seq<Observation>, k: nat, prev: Option<string>, extracted: bool)
    requires k < |obs| && Decides(obs, k, prev)
    requires forall j :: 0 <= j < k ==> !Decides(obs, j, prev)
    ensures Wait(obs, prev, extracted) ==
      Decision(if Counted(obs[k], prev) then (if extracted then Ready else Failed) else Empty, k)
  {
    assert LastCounted(obs, 0, prev).None?;
    WaitFromDecides(obs, 0, Fresh, prev, extracted);
  }

  /** A page that keeps showing the previous day's table never settles. */
  lemma {:induction false} StaleTableTimesOut(obs: seq<Observation>, i: nat, c: Counter, prev: Option<string>, extracted: bool)
    requires i <= |obs|
    requires forall j :: i <= j < |obs| ==> obs[j].Table? && obs[j].sig == prev
    ensures WaitFrom(obs, i, c, prev, extracted) == Decision(Failed, |obs|)
    decreases |obs| - i
  {
    if i < |obs| {
      StaleTableTimesOut(obs, i + 1, c, prev, extracted);
    }
  }

  /** `wait_for_next_day_table`: one turn per observation until the deadline. */
  method WaitForNextDayTable(obs: seq<Observation>, prevSig: Option<string>, extracted: bool)
    returns (status: WaitStatus)
    ensures status == Wait(obs, prevSig, extracted).status
  {
    var lastRowCount: Option<nat> := None;
    var stableCount: nat := 0;
    var lastSig: Option<string> := None;
    var i := 0;
    while i < |obs|
      invariant 0 <= i <= |obs|
      invariant WaitFrom(obs, i, Counter(lastRowCount, stableCount, lastSig), prevSig, extracted)
                == Wait(obs, prevSig, extracted)
      decreases |obs| - i
    {
      var o := obs[i];
      if o.Spinner? {
        i := i + 1;
        continue;
      }
      if o.Table? {
        if o.sig == prevSig {
          i := i + 1;
          continue;
        }
        if o.rowCount == 0 && o.emptyText {
          return Empty;
        }
        if lastRowCount.None? {
          lastRowCount := Some(o.rowCount);
          stableCount := 1;
          lastSig := o.sig;
        } else if o.rowCount == lastRowCount.value && o.sig == lastSig {
          stableCount := stableCount + 1;
        } else {
          lastRowCount := Some(o.rowCount);
          stableCount := 1;
          lastSig := o.sig;
        }
        if stableCount >= StableChecks {
          if extracted {
            return Ready;
          }
          return Failed;
        }
        i := i + 1;
        continue;
      }
      if o.emptyText {
        return Empty;
      }
      i := i + 1;
    }
    return Failed;
  }
}
