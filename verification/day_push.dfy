/**
 * The upload of a day's sheet in day.py (`push_sheet_to_api`): the rows are
 * normalised in place, posted with the known version, and on a version
 * conflict merged with the server's copy and posted once more; what is left
 * over ends in a conflict or failure backup.
 *
 * The HTTP exchanges are inputs: the reply to the first post, the reply to
 * the re-fetch of the server's sheet and the reply to the retry. The result
 * records every payload posted and the backup written, if any.
 */
module DayPush {
  import opened Wrappers
  import opened PyValues
  import opened DayRows

  const SiteKey: string := "사이트"
  const NameKey: string := "고객명"
  const PhoneKey: string := "연락처"
  const DateKey: string := "예약일"

  // ---------------------------------------------------------------------------
  // The merge key and the dicts keyed by it
  // ---------------------------------------------------------------------------

  /** One part of the merge key: `row.get(k, '')` formatted as text. */
  function KeyPart(d: Dict, k: string): string {
    if k in d then Str(d[k]) else ""
  }

  /** `key_of`: site, customer name, phone and reservation date joined by `|`. */
  function MergeKey(d: Dict): string {
    KeyPart(d, SiteKey) + "|" + KeyPart(d, NameKey) + "|" + KeyPart(d, PhoneKey) + "|" + KeyPart(d, DateKey)
  }

  predicate Distinct(xs: seq<string>) {
    forall i, j :: 0 <= i < j < |xs| ==> xs[i] != xs[j]
  }

  /** The keys of `{key(r): r for r in rows}` in dict order: first occurrence. */
  function FirstKeys(rows: seq<Dict>, key: Dict -> string): seq<string>
    decreases |rows|
  {
    if rows == [] then []
    else
      var p := FirstKeys(rows[..|rows| - 1], key);
      var k := key(rows[|rows| - 1]);
      if k in p then p else p + [k]
  }

  /** The values of that dict: for each key, the last row that has it. */
  function LastByKey(rows: seq<Dict>, key: Dict -> string): map<string, Dict>
    decreases |rows|
  {
    if rows == [] then map[]
    else LastByKey(rows[..|rows| - 1], key)[key(rows[|rows| - 1]) := rows[|rows| - 1]]
  }

  /** The key order and the last rows describe the same dict: the same keys,
      each once, each row filed under its own key, every row's key present. */
  lemma {:induction false} IndexFacts(rows: seq<Dict>, key: Dict -> string)
    ensures forall k :: k in FirstKeys(rows, key) <==> k in LastByKey(rows, key)
    ensures Distinct(FirstKeys(rows, key))
    ensures forall k :: k in LastByKey(rows, key) ==> key(LastByKey(rows, key)[k]) == k
    ensures forall i :: 0 <= i < |rows| ==> key(rows[i]) in LastByKey(rows, key)
    decreases |rows|
  {
    if rows != [] {
      var init := rows[..|rows| - 1];
      IndexFacts(init, key);
      forall i | 0 <= i < |rows| ensures key(rows[i]) in LastByKey(rows, key) {
        if i < |rows| - 1 {
          assert rows[i] == init[i];
        }
      }
    }
  }

  /** The rows filed under the given keys, in key order (keys `m` lacks are skipped). */
  function Values(ks: seq<string>, m: map<string, Dict>): (r: seq<Dict>)
    decreases |ks|
  {
    if ks == [] then []
    else Values(ks[..|ks| - 1], m) + (if ks[|ks| - 1] in m then [m[ks[|ks| - 1]]] else [])
  }

  lemma {:induction false} ValuesLength(ks: seq<string>, m: map<string, Dict>)
    requires forall k :: k in ks ==> k in m
    ensures |Values(ks, m)| == |ks|
    decreases |ks|
  {
    if ks != [] {
      ValuesLength(ks[..|ks| - 1], m);
    }
  }

  /** The keys not in `excl`, in order. */
  function Without(ks: seq<string>, excl: set<string>): seq<string>
    decreases |ks|
  {
    if ks == [] then []
    else Without(ks[..|ks| - 1], excl) + (if ks[|ks| - 1] in excl then [] else [ks[|ks| - 1]])
  }

  lemma {:induction false} WithoutSpec(ks: seq<string>, excl: set<string>)
    ensures forall k :: k in Without(ks, excl) <==> k in ks && k !in excl
    ensures Distinct(ks) ==> Distinct(Without(ks, excl))
    decreases |ks|
  {
    if ks != [] {
      var init := ks[..|ks| - 1];
      WithoutSpec(init, excl);
      assert ks == init + [ks[|ks| - 1]];
      if Distinct(ks) {
        assert Distinct(init);
        assert ks[|ks| - 1] !in init;
      }
    }
  }

  /** The keys the client contributes: its keys the server lacks, in client order. */
  function ClientOnlyKeys(server: seq<Dict>, client: seq<Dict>, key: Dict -> string): seq<string> {
    Without(FirstKeys(client, key), LastByKey(server, key).Keys)
  }

  /** The merged sheet as the source builds it: the server's dict values in
      order, then the values of the client's dict whose key the server lacks. */
  function MergeSpec(server: seq<Dict>, client: seq<Dict>, key: Dict -> string): seq<Dict> {
    Values(FirstKeys(server, key), LastByKey(server, key))
      + Values(ClientOnlyKeys(server, client, key), LastByKey(client, key))
  }

  /** The keys of a list of rows, in order. */
  function KeysOf(rows: seq<Dict>, key: Dict -> string): (r: seq<string>)
    ensures |r| == |rows|
  {
    seq(|rows|, i requires 0 <= i < |rows| => key(rows[i]))
  }

  lemma {:induction false} KeysOfValues(ks: seq<string>, m: map<string, Dict>, key: Dict -> string)
    requires forall k :: k in ks ==> k in m && key(m[k]) == k
    ensures KeysOf(Values(ks, m), key) == ks
    decreases |ks|
  {
    if ks != [] {
      var init := ks[..|ks| - 1];
      KeysOfValues(init, m, key);
      ValuesLength(init, m);
      assert KeysOf(Values(ks, m), key) == KeysOf(Values(init, m), key) + [ks[|ks| - 1]];
      assert ks == init + [ks[|ks| - 1]];
    }
  }

  /** Each row of `Values(ks, m)` is filed under its own key, one of `ks`. */
  lemma {:induction false} ValuesFiled(ks: seq<string>, m: map<string, Dict>, key: Dict -> string)
    requires forall k :: k in ks ==> k in m && key(m[k]) == k
    ensures forall j :: 0 <= j < |Values(ks, m)| ==>
              key(Values(ks, m)[j]) in ks && Values(ks, m)[j] == m[key(Values(ks, m)[j])]
    decreases |ks|
  {
    if ks != [] {
      var init := ks[..|ks| - 1];
      ValuesFiled(init, m, key);
      forall j | 0 <= j < |Values(ks, m)|
        ensures key(Values(ks, m)[j]) in ks && Values(ks, m)[j] == m[key(Values(ks, m)[j])]
      {
        if j < |Values(init, m)| {
          assert Values(ks, m)[j] == Values(init, m)[j];
          assert key(Values(init, m)[j]) in init;
        }
      }
    }
  }

  lemma {:induction false} ValuesAt(ks: seq<string>, m: map<string, Dict>, i: nat)
    requires forall k :: k in ks ==> k in m
    requires i < |ks|
    ensures |Values(ks, m)| == |ks| && Values(ks, m)[i] == m[ks[i]]
    decreases |ks|
  {
    ValuesLength(ks, m);
    ValuesLength(ks[..|ks| - 1], m);
    if i < |ks| - 1 {
      ValuesAt(ks[..|ks| - 1], m, i);
    }
  }

  lemma {:induction false} DistinctCard(xs: seq<string>)
    requires Distinct(xs)
    ensures |set x | x in xs| == |xs|
    decreases |xs|
  {
    if xs != [] {
      var init := xs[..|xs| - 1];
      DistinctCard(init);
      assert xs == init + [xs[|xs| - 1]];
      assert (set x | x in xs) == (set x | x in init) + {xs[|xs| - 1]};
    }
  }

  /** The keys of the merged sheet: the server's, then the client-only ones. */
  lemma {:induction false} MergeKeys(server: seq<Dict>, client: seq<Dict>, key: Dict -> string)
    ensures KeysOf(MergeSpec(server, client, key), key)
            == FirstKeys(server, key) + ClientOnlyKeys(server, client, key)
  {
    var sm, cm := LastByKey(server, key), LastByKey(client, key);
    IndexFacts(server, key);
    IndexFacts(client, key);
    var ck := ClientOnlyKeys(server, client, key);
    WithoutSpec(FirstKeys(client, key), sm.Keys);
    var a, b := Values(FirstKeys(server, key), sm), Values(ck, cm);
    assert MergeSpec(server, client, key) == a + b;
    KeysOfValues(FirstKeys(server, key), sm, key);
    KeysOfValues(ck, cm, key);
    KeysOfConcat(a, b, key);
  }

  lemma KeysOfConcat(a: seq<Dict>, b: seq<Dict>, key: Dict -> string)
    ensures KeysOf(a + b, key) == KeysOf(a, key) + KeysOf(b, key)
  {
  }

  /** No key appears twice in the merged sheet. */
  lemma {:induction false} MergeKeysDistinct(server: seq<Dict>, client: seq<Dict>, key: Dict -> string)
    ensures Distinct(KeysOf(MergeSpec(server, client, key), key))
  {
    var sk, ck := FirstKeys(server, key), ClientOnlyKeys(server, client, key);
    IndexFacts(server, key);
    WithoutSpec(FirstKeys(client, key), LastByKey(server, key).Keys);
    IndexFacts(client, key);
    MergeKeys(server, client, key);
    DistinctConcat(sk, ck);
  }

  lemma DistinctConcat(a: seq<string>, b: seq<string>)
    requires Distinct(a) && Distinct(b)
    requires forall x :: x in b ==> x !in a
    ensures Distinct(a + b)
  {
    forall i, j | 0 <= i < j < |a + b| ensures (a + b)[i] != (a + b)[j] {
      if j < |a| {
        assert (a + b)[i] == a[i] && (a + b)[j] == a[j];
      } else if i >= |a| {
        assert (a + b)[i] == b[i - |a|] && (a + b)[j] == b[j - |a|];
      } else {
        assert (a + b)[i] == a[i] && (a + b)[j] == b[j - |a|];
        assert b[j - |a|] in b;
      }
    }
  }

  /** The server wins: each merged row is the server's last row of its key when
      the server has that key, and otherwise the client's last row of it. */
  lemma {:induction false} MergeRows(server: seq<Dict>, client: seq<Dict>, key: Dict -> string)
    ensures var m := MergeSpec(server, client, key);
      forall j :: 0 <= j < |m| ==>
        if key(m[j]) in LastByKey(server, key) then m[j] == LastByKey(server, key)[key(m[j])]
        else key(m[j]) in LastByKey(client, key) && m[j] == LastByKey(client, key)[key(m[j])]
  {
    var sm, cm := LastByKey(server, key), LastByKey(client, key);
    var sk, ck := FirstKeys(server, key), ClientOnlyKeys(server, client, key);
    IndexFacts(server, key);
    IndexFacts(client, key);
    WithoutSpec(FirstKeys(client, key), sm.Keys);
    var a, b := Values(sk, sm), Values(ck, cm);
    ValuesFiled(sk, sm, key);
    ValuesFiled(ck, cm, key);
    var m := MergeSpec(server, client, key);
    assert m == a + b;
    forall j | 0 <= j < |m|
      ensures if key(m[j]) in sm then m[j] == sm[key(m[j])]
              else key(m[j]) in cm && m[j] == cm[key(m[j])]
    {
      if j < |a| {
        assert m[j] == a[j];
      } else {
        assert m[j] == b[j - |a|];
      }
    }
  }

  /** Nothing is lost: the merged keys are exactly the keys of both sides, so
      the merged sheet has one row per key of their union. */
  lemma {:induction false} MergeCoversBoth(server: seq<Dict>, client: seq<Dict>, key: Dict -> string)
    ensures var m := MergeSpec(server, client, key);
      && (forall k :: k in KeysOf(m, key) <==> k in LastByKey(server, key) || k in LastByKey(client, key))
      && |m| == |LastByKey(server, key).Keys + LastByKey(client, key).Keys|
  {
    var m := MergeSpec(server, client, key);
    var ks := FirstKeys(server, key) + ClientOnlyKeys(server, client, key);
    var both := LastByKey(server, key).Keys + LastByKey(client, key).Keys;
    MergeKeys(server, client, key);
    MergeKeysDistinct(server, client, key);
    MergeKeySet(server, client, key);
    assert (set x | x in ks) == both;
    DistinctCard(ks);
  }

  lemma {:induction false} MergeKeySet(server: seq<Dict>, client: seq<Dict>, key: Dict -> string)
    ensures forall k :: k in FirstKeys(server, key) + ClientOnlyKeys(server, client, key)
                        <==> k in LastByKey(server, key) || k in LastByKey(client, key)
  {
    IndexFacts(server, key);
    IndexFacts(client, key);
    WithoutSpec(FirstKeys(client, key), LastByKey(server, key).Keys);
  }

  /** The two `for` loops that build the merged sheet from the two dicts keyed by `key`. */
  method Merge(server: seq<Dict>, client: seq<Dict>, key: Dict -> string) returns (merged: seq<Dict>)
    ensures merged == MergeSpec(server, client, key)
  {
    var serverKeys, serverMap := FirstKeys(server, key), LastByKey(server, key);
    var clientKeys, clientMap := FirstKeys(client, key), LastByKey(client, key);
    merged := [];
    var i := 0;
    while i < |serverKeys|
      invariant 0 <= i <= |serverKeys|
      invariant merged == Values(serverKeys[..i], serverMap)
    {
      ServerStep(serverKeys, i, serverMap);
      if serverKeys[i] in serverMap {
        merged := merged + [serverMap[serverKeys[i]]];
      }
      i := i + 1;
    }
    assert serverKeys[..i] == serverKeys;
    ghost var head := merged;
    var j := 0;
    while j < |clientKeys|
      invariant 0 <= j <= |clientKeys|
      invariant merged == head + Values(Without(clientKeys[..j], serverMap.Keys), clientMap)
    {
      ClientStep(clientKeys, j, serverMap.Keys, clientMap);
      if clientKeys[j] !in serverMap.Keys && clientKeys[j] in clientMap {
        merged := merged + [clientMap[clientKeys[j]]];
      }
      j := j + 1;
    }
    assert clientKeys[..j] == clientKeys;
  }

  /** One turn of the server loop. */
  lemma ServerStep(ks: seq<string>, i: nat, m: map<string, Dict>)
    requires i < |ks|
    ensures Values(ks[..i + 1], m) == Values(ks[..i], m) + (if ks[i] in m then [m[ks[i]]] else [])
  {
    assert ks[..i + 1][..i] == ks[..i];
  }

  /** One turn of the client loop. */
  lemma ClientStep(ks: seq<string>, j: nat, excl: set<string>, m: map<string, Dict>)
    requires j < |ks|
    ensures Values(Without(ks[..j + 1], excl), m)
            == Values(Without(ks[..j], excl), m) + (if ks[j] !in excl && ks[j] in m then [m[ks[j]]] else [])
  {
    var w := Without(ks[..j], excl);
    assert ks[..j + 1][..j] == ks[..j];
    if ks[j] in excl {
      assert Without(ks[..j + 1], excl) == w;
    } else {
      assert Without(ks[..j + 1], excl) == w + [ks[j]];
      assert (w + [ks[j]])[..|w|] == w;
    }
  }

  // ---------------------------------------------------------------------------
  // The upload protocol
  // ---------------------------------------------------------------------------

  /** The JSON body of a reply: unreadable, or read with its `current_version` if any. */
  datatype ReplyBody = Unreadable | Readable(currentVersion: Option<int>)

  /** The reply to a POST, or the exception the request raised. */
  datatype PostReply = Replied(status: int, body: ReplyBody) | PostRaised

  /** The reply to the re-fetch: its status and, when the body could be read as
      a dict holding a list of dict rows, those rows; or the exception raised. */
  datatype FetchReply = Fetched(status: int, sheet: Option<seq<Dict>>) | FetchRaised

  /** The parts of the payload the protocol changes. */
  datatype Payload = Payload(version: int, sheet: seq<Dict>)

  datatype PushOutcome =
    | Uploaded
    | UploadedAfterMerge
    | UploadRefused
    | ConflictBackup(saved: Payload)
    | FailBackup(saved: Payload)
    | NormalisationRaised

  /** `requests`' `ok`: not a 4xx or 5xx status. */
  predicate Ok(status: int) {
    !(400 <= status < 600)
  }

  /** The protocol after normalisation: the outcome and the payloads posted, in order. */
  function Push(rows: seq<Dict>, version: Option<int>, first: PostReply, fetch: FetchReply, retry: PostReply)
    : (PushOutcome, seq<Payload>)
  {
    var p0 := Payload(version.GetOr(0), rows);
    match first
    case PostRaised => (FailBackup(p0), [p0])
    case Replied(status, body) =>
      if status == 409 then
        if body.Unreadable? then (FailBackup(p0), [p0])
        else if fetch.FetchRaised? || !Ok(fetch.status) || fetch.sheet.None? then (ConflictBackup(p0), [p0])
        else
          var p1 := Payload(body.currentVersion.GetOr(0), MergeSpec(fetch.sheet.value, rows, MergeKey));
          if retry.Replied? && Ok(retry.status) && retry.body.Readable? then (UploadedAfterMerge, [p0, p1])
          else (ConflictBackup(p1), [p0, p1])
      else if !Ok(status) then (UploadRefused, [p0])
      else if body.Unreadable? then (FailBackup(p0), [p0])
      else (Uploaded, [p0])
  }

  /** A conflict whose body was read and whose re-fetch gave the server's rows. */
  predicate MergeReached(first: PostReply, fetch: FetchReply) {
    first.Replied? && first.status == 409 && first.body.Readable?
    && fetch.Fetched? && Ok(fetch.status) && fetch.sheet.Some?
  }

  /** The retry policy: the first post carries the known version (0 when
      unknown) and the normalised rows; a second post happens exactly when a
      conflict is followed by a readable re-fetch, and it carries the 409's
      `current_version` (0 when absent) and the merged rows; there is no third. */
  lemma PushRetryPolicy(rows: seq<Dict>, version: Option<int>, first: PostReply, fetch: FetchReply, retry: PostReply)
    ensures var (_, posts) := Push(rows, version, first, fetch, retry);
      && 1 <= |posts| <= 2
      && posts[0] == Payload(version.GetOr(0), rows)
      && (|posts| == 2 <==> MergeReached(first, fetch))
      && (|posts| == 2 ==>
            posts[1] == Payload(first.body.currentVersion.GetOr(0), MergeSpec(fetch.sheet.value, rows, MergeKey)))
  {
  }

  /** The outcomes: a backup always holds the payload as it was last posted
      (the merged one after a retry); a conflict ends merged and uploaded or in
      a conflict backup; any other refusal is only reported; a first post that
      raises ends in a failure backup. */
  lemma PushOutcomes(rows: seq<Dict>, version: Option<int>, first: PostReply, fetch: FetchReply, retry: PostReply)
    ensures var (outcome, posts) := Push(rows, version, first, fetch, retry);
      && (outcome.ConflictBackup? ==> outcome.saved == posts[|posts| - 1])
      && (outcome.FailBackup? ==> |posts| == 1 && outcome.saved == posts[0])
      && (outcome == UploadedAfterMerge <==>
            MergeReached(first, fetch) && retry.Replied? && Ok(retry.status) && retry.body.Readable?)
      && (first.Replied? && first.status == 409 && first.body.Readable? ==>
            outcome == UploadedAfterMerge || outcome.ConflictBackup?)
      && (first.Replied? && first.status != 409 && !Ok(first.status) ==> outcome == UploadRefused)
      && (first.PostRaised? ==> outcome == FailBackup(posts[0]))
      && (outcome == Uploaded <==> first.Replied? && Ok(first.status) && first.body.Readable?)
  {
  }

  /** The rows of a list whose entries are all dicts. */
  function Dicts(rows: seq<Row>): (r: seq<Dict>)
    requires forall i :: 0 <= i < |rows| ==> rows[i].DictRow?
    ensures |r| == |rows|
  {
    seq(|rows|, i requires 0 <= i < |rows| => rows[i].d)
  }

  /** `push_sheet_to_api`: the rows are normalised in place first; an entry
      that is not a dict makes that loop raise before anything is posted. */
  method PushSheetToApi(bookings: array<Row>, version: Option<int>,
                        first: PostReply, fetch: FetchReply, retry: PostReply)
    returns (outcome: PushOutcome, posts: seq<Payload>)
    modifies bookings
    ensures forall i :: 0 <= i < FirstNonDict(old(bookings[..])) ==> bookings[i] == PushEntry(old(bookings[i]))
    ensures forall i :: FirstNonDict(old(bookings[..])) <= i < bookings.Length ==> bookings[i] == old(bookings[i])
    ensures FirstNonDict(old(bookings[..])) < bookings.Length ==> outcome == NormalisationRaised && posts == []
    ensures FirstNonDict(old(bookings[..])) == bookings.Length ==>
              (forall i :: 0 <= i < bookings.Length ==> bookings[i].DictRow?)
              && (outcome, posts) == Push(Dicts(bookings[..]), version, first, fetch, retry)
  {
    var ok := NormalizeForPush(bookings);
    if !ok {
      return NormalisationRaised, [];
    }
    var rows := Dicts(bookings[..]);
    var payload := Payload(if version.Some? then version.value else 0, rows);
    posts := [payload];
    if first.PostRaised? {
      return FailBackup(payload), posts;
    }
    if first.status == 409 {
      if first.body.Unreadable? {
        // reading the 409 body raises outside the conflict handling
        return FailBackup(payload), posts;
      }
      if fetch.FetchRaised? || !Ok(fetch.status) || fetch.sheet.None? {
        return ConflictBackup(payload), posts;
      }
      var merged := Merge(fetch.sheet.value, rows, MergeKey);
      payload := payload.(sheet := merged);
      payload := payload.(version := first.body.currentVersion.GetOr(0));
      posts := posts + [payload];
      ghost var p0 := Payload(version.GetOr(0), rows);
      assert payload == Payload(first.body.currentVersion.GetOr(0), MergeSpec(fetch.sheet.value, rows, MergeKey));
      assert posts == [p0, payload];
      if retry.Replied? && Ok(retry.status) && retry.body.Readable? {
        assert Push(rows, version, first, fetch, retry) == (UploadedAfterMerge, [p0, payload]);
        return UploadedAfterMerge, posts;
      }
      return ConflictBackup(payload), posts;
    }
    if !Ok(first.status) {
      return UploadRefused, posts;
    }
    if first.body.Unreadable? {
      // reading the success body for the log raises
      return FailBackup(payload), posts;
    }
    outcome := Uploaded;
  }
}
