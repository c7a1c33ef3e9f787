/**
 * The entry scan of `parseInput`, lifted to a function of the text already
 * read: every double quote followed by a digit opens a candidate key, whose
 * entry is the next `{…}` object; entries with a non-empty `base` and `value`
 * are stored under the key, a later one replacing an earlier one.
 */
module Entries {
  import opened Wrappers
  import opened Numerals
  import opened Search
  import opened Extract

  /** One point as read from the text: its base and its digits, both still text. */
  datatype Entry = Entry(base: string, value: string)

  /** The `base` and `value` fields of one entry object. */
  function ParseEntryObject(obj: string): Entry {
    Entry(ExtractStringValue(obj, "base"), ExtractStringValue(obj, "value"))
  }

  /** What the scan demands of an entry before storing it. */
  predicate Complete(e: Entry) {
    e.base != "" && e.value != ""
  }

  /** A complete candidate: the positions of its key quotes and of its object's braces. */
  datatype Candidate = Candidate(quote: nat, keyEnd: nat, objStart: nat, objEnd: nat)

  /**
   * Where a candidate sits in `json`: a quote followed by a digit, the key text
   * up to the next quote, the first `{` from that quote on and the first `}`
   * from the `{` on.
   */
  predicate Positioned(json: string, c: Candidate) {
    && c.quote + 1 < |json|
    && json[c.quote] == '"' && IsDigit(json[c.quote + 1])
    && FindFirstOf(json, {'"'}, c.quote + 1) == Some(c.keyEnd)
    && FindFirstOf(json, {'{'}, c.keyEnd) == Some(c.objStart)
    && FindFirstOf(json, {'}'}, c.objStart) == Some(c.objEnd)
  }

  /** The positions of a candidate are in text order and hold the characters the scan looked for. */
  lemma PositionedInOrder(json: string, c: Candidate)
    requires Positioned(json, c)
    ensures c.quote < c.keyEnd < c.objStart <= c.objEnd < |json|
    ensures json[c.keyEnd] == '"' && json[c.objStart] == '{' && json[c.objEnd] == '}'
  {
  }

  /** The text between the key quotes. */
  function KeyText(json: string, c: Candidate): (t: string)
    requires Positioned(json, c)
    ensures |t| > 0 && IsDigit(t[0])
  {
    json[c.quote + 1..c.keyEnd]
  }

  /** The entry object, braces included. */
  function ObjectText(json: string, c: Candidate): string
    requires Positioned(json, c)
  {
    json[c.objStart..c.objEnd + 1]
  }

  /** The entry `decode` reads from a candidate's object; the loop decodes with `ParseEntryObject`. */
  function EntryOf(json: string, decode: string -> Entry, c: Candidate): Entry
    requires Positioned(json, c)
  {
    decode(ObjectText(json, c))
  }

  /**
   * The key a candidate is stored under: the value of the digit run its key
   * text starts with, which is what `stoi` reads from it (`KeyOfIsStoi`).
   */
  function KeyOf(json: string, c: Candidate): (k: int)
    requires Positioned(json, c)
    ensures k >= 0
  {
    var ds := DigitPrefix(KeyText(json, c));
    DigitPrefixIsLongestRun(KeyText(json, c));
    HornerNonNegative(ds, 10);
    Horner(ds, 10)
  }

  /** `stoi` of the key text never fails and yields the candidate's key. */
  lemma KeyOfIsStoi(json: string, c: Candidate)
    requires Positioned(json, c)
    ensures Stoi(KeyText(json, c)) == Some(KeyOf(json, c))
  {
    StoiOfDigitLed(KeyText(json, c));
  }

  /**
   * The complete candidates the loop visits, in text order, from the quote
   * search position `from` on. A quote not followed by a digit, or a candidate
   * missing its closing key quote, its `{` or its `}`, resumes the search just
   * past that quote; a complete candidate resumes it just past its closing
   * brace, whether or not its entry is then stored.
   */
  function Scan(json: string, from: nat): seq<Candidate>
    decreases |json| + 1 - from
  {
    match FindFirstOf(json, {'"'}, from)
    case None => []
    case Some(q) =>
      match CandidateAt(json, q)
      case None => Scan(json, q + 1)
      case Some(c) => [c] + Scan(json, c.objEnd + 1)
  }

  /**
   * The complete candidate opened by the quote at `q`, if any: the quote must
   * be followed by a digit, and a closing quote, a `{` and a `}` must follow.
   */
  function CandidateAt(json: string, q: nat): (r: Option<Candidate>)
    requires q < |json| && json[q] == '"'
    ensures r.Some? ==> r.value.quote == q && Positioned(json, r.value)
  {
    if !(q + 1 < |json| && IsDigit(json[q + 1])) then None
    else
      match FindFirstOf(json, {'"'}, q + 1)
      case None => None
      case Some(keyEnd) =>
        match FindFirstOf(json, {'{'}, keyEnd)
        case None => None
        case Some(objStart) =>
          match FindFirstOf(json, {'}'}, objStart)
          case None => None
          case Some(objEnd) => Some(Candidate(q, keyEnd, objStart, objEnd))
  }

  /** Every candidate of the scan starts at or after `from` and sits where the searches found it. */
  lemma {:induction false} ScanPositioned(json: string, from: nat, i: nat)
    requires i < |Scan(json, from)|
    ensures from <= Scan(json, from)[i].quote && Positioned(json, Scan(json, from)[i])
    decreases |json| + 1 - from
  {
    var q := FindFirstOf(json, {'"'}, from).value;
    match CandidateAt(json, q)
    case None =>
      ScanPositioned(json, q + 1, i);
    case Some(c) =>
      if i > 0 {
        PositionedInOrder(json, c);
        ScanPositioned(json, c.objEnd + 1, i - 1);
      }
  }

  /** Each candidate of the scan closes its object before the next one opens its key. */
  lemma {:induction false} ScanOrdered(json: string, from: nat, i: nat)
    requires i + 1 < |Scan(json, from)|
    ensures Scan(json, from)[i].objEnd < Scan(json, from)[i + 1].quote
    decreases |json| + 1 - from
  {
    var q := FindFirstOf(json, {'"'}, from).value;
    match CandidateAt(json, q)
    case None =>
      ScanOrdered(json, q + 1, i);
    case Some(c) =>
      if i > 0 {
        ScanOrdered(json, c.objEnd + 1, i - 1);
      } else {
        ScanPositioned(json, c.objEnd + 1, 0);
      }
  }

  /** Every positioned candidate is the one its quote opens. */
  lemma CandidateAtComplete(json: string, c: Candidate)
    requires Positioned(json, c)
    ensures CandidateAt(json, c.quote) == Some(c)
  {
  }

  /**
   * The scan does not miss a candidate: when every quote between `from` and a
   * positioned candidate opens nothing, the scan's first candidate is that one.
   */
  lemma {:induction false} ScanFinds(json: string, from: nat, c: Candidate)
    requires Positioned(json, c) && from <= c.quote
    requires forall q :: from <= q < c.quote && json[q] == '"' ==> CandidateAt(json, q).None?
    ensures |Scan(json, from)| > 0 && Scan(json, from)[0] == c
    decreases c.quote - from
  {
    FindFirstOfIsFirst(json, {'"'}, from);
    var q := FindFirstOf(json, {'"'}, from).value;
    assert q <= c.quote;
    if q == c.quote {
      CandidateAtComplete(json, c);
      ScanStep(json, from, q);
    } else {
      assert CandidateAt(json, q).None?;
      ScanStep(json, from, q);
      ScanFinds(json, q + 1, c);
    }
  }

  /** A candidate whose entry the loop stores. */
  predicate Stored(json: string, decode: string -> Entry, c: Candidate) {
    Positioned(json, c) && Complete(EntryOf(json, decode, c))
  }

  /**
   * Visits the candidates `cs` in order, storing each complete entry under its
   * key as `data.entries[key] = entry` does: a later one replaces an earlier one.
   */
  function Store(json: string, decode: string -> Entry, m: map<int, Entry>, cs: seq<Candidate>): map<int, Entry>
    decreases |cs|
  {
    if |cs| == 0 then m else Store(json, decode, Visit(json, decode, m, cs[0]), cs[1..])
  }

  /** One visit of the loop body: a stored candidate's entry goes under its key. */
  function Visit(json: string, decode: string -> Entry, m: map<int, Entry>, c: Candidate): map<int, Entry> {
    if Stored(json, decode, c) then m[KeyOf(json, c) := EntryOf(json, decode, c)] else m
  }

  /** The entries map `parseInput` builds from the whole text. */
  function ScanEntries(json: string): map<int, Entry> {
    Store(json, ParseEntryObject, map[], Scan(json, 1))
  }

  /** The keys after the visit are the keys before and the keys of the stored candidates. */
  lemma {:induction false} StoreKeys(json: string, decode: string -> Entry, m: map<int, Entry>, cs: seq<Candidate>, k: int)
    ensures k in Store(json, decode, m, cs) <==>
      k in m || exists i :: 0 <= i < |cs| && Stored(json, decode, cs[i]) && KeyOf(json, cs[i]) == k
    decreases |cs|
  {
    if |cs| > 0 {
      var c := cs[0];
      var m' := Visit(json, decode, m, c);
      StoreKeys(json, decode, m', cs[1..], k);
      if i :| 0 <= i < |cs| && Stored(json, decode, cs[i]) && KeyOf(json, cs[i]) == k {
        if i > 0 {
          assert cs[1..][i - 1] == cs[i];
        }
      }
      if i :| 0 <= i < |cs[1..]| && Stored(json, decode, cs[1..][i]) && KeyOf(json, cs[1..][i]) == k {
        assert cs[i + 1] == cs[1..][i];
      }
    }
  }

  /** A key no later stored candidate carries keeps what it had. */
  lemma {:induction false} StoreKeeps(json: string, decode: string -> Entry, m: map<int, Entry>, cs: seq<Candidate>, k: int)
    requires k in m
    requires forall j :: 0 <= j < |cs| && Stored(json, decode, cs[j]) ==> KeyOf(json, cs[j]) != k
    ensures k in Store(json, decode, m, cs) && Store(json, decode, m, cs)[k] == m[k]
    decreases |cs|
  {
    if |cs| > 0 {
      var c := cs[0];
      var m' := Visit(json, decode, m, c);
      forall j | 0 <= j < |cs[1..]| && Stored(json, decode, cs[1..][j])
        ensures KeyOf(json, cs[1..][j]) != k
      {
        assert cs[1..][j] == cs[j + 1];
      }
      StoreKeeps(json, decode, m', cs[1..], k);
    }
  }

  /** The last stored candidate with a key decides that key's entry. */
  lemma {:induction false} StoreLastWins(json: string, decode: string -> Entry, m: map<int, Entry>, cs: seq<Candidate>, i: nat)
    requires i < |cs| && Stored(json, decode, cs[i])
    requires forall j :: i < j < |cs| && Stored(json, decode, cs[j]) ==> KeyOf(json, cs[j]) != KeyOf(json, cs[i])
    ensures KeyOf(json, cs[i]) in Store(json, decode, m, cs)
    ensures Store(json, decode, m, cs)[KeyOf(json, cs[i])] == EntryOf(json, decode, cs[i])
    decreases |cs|
  {
    if i == 0 {
      StoreHeadWins(json, decode, m, cs);
    } else {
      NoLaterKey(json, decode, cs, i, KeyOf(json, cs[i]));
      assert cs[1..][i - 1] == cs[i];
      StoreLastWins(json, decode, Visit(json, decode, m, cs[0]), cs[1..], i - 1);
    }
  }

  /** A stored first candidate whose key no later stored candidate carries keeps its entry. */
  lemma StoreHeadWins(json: string, decode: string -> Entry, m: map<int, Entry>, cs: seq<Candidate>)
    requires 0 < |cs| && Stored(json, decode, cs[0])
    requires forall j :: 0 < j < |cs| && Stored(json, decode, cs[j]) ==> KeyOf(json, cs[j]) != KeyOf(json, cs[0])
    ensures KeyOf(json, cs[0]) in Store(json, decode, m, cs)
    ensures Store(json, decode, m, cs)[KeyOf(json, cs[0])] == EntryOf(json, decode, cs[0])
  {
    NoLaterKey(json, decode, cs, 0, KeyOf(json, cs[0]));
    StoreKeeps(json, decode, Visit(json, decode, m, cs[0]), cs[1..], KeyOf(json, cs[0]));
  }

  /** What holds of the stored candidates after position `i` holds of them in the tail from there on. */
  lemma NoLaterKey(json: string, decode: string -> Entry, cs: seq<Candidate>, i: nat, k: int)
    requires i < |cs|
    requires forall j :: i < j < |cs| && Stored(json, decode, cs[j]) ==> KeyOf(json, cs[j]) != k
    ensures forall j :: i <= j < |cs| - 1 && Stored(json, decode, cs[1..][j]) ==> KeyOf(json, cs[1..][j]) != k
  {
    forall j | i <= j < |cs| - 1 && Stored(json, decode, cs[1..][j])
      ensures KeyOf(json, cs[1..][j]) != k
    {
      assert cs[1..][j] == cs[j + 1];
    }
  }

  /** A value after the visit was there before or is the entry of a stored candidate with that key. */
  lemma {:induction false} StoreSource(json: string, decode: string -> Entry, m: map<int, Entry>, cs: seq<Candidate>, k: int)
    requires k in Store(json, decode, m, cs)
    ensures (k in m && Store(json, decode, m, cs)[k] == m[k]) ||
      exists i :: 0 <= i < |cs| && Stored(json, decode, cs[i]) && KeyOf(json, cs[i]) == k && EntryOf(json, decode, cs[i]) == Store(json, decode, m, cs)[k]
    decreases |cs|
  {
    if |cs| > 0 {
      var c := cs[0];
      var m' := Visit(json, decode, m, c);
      StoreSource(json, decode, m', cs[1..], k);
      var v := Store(json, decode, m, cs)[k];
      if i :| 0 <= i < |cs[1..]| && Stored(json, decode, cs[1..][i]) && KeyOf(json, cs[1..][i]) == k && EntryOf(json, decode, cs[1..][i]) == v {
        assert cs[i + 1] == cs[1..][i];
      } else if Stored(json, decode, c) && k == KeyOf(json, c) {
        assert m'[k] == v;
      }
    }
  }

  /** Visiting candidates from an empty map yields non-negative keys and complete entries only. */
  lemma StoreWellFormed(json: string, decode: string -> Entry, cs: seq<Candidate>, k: int)
    requires k in Store(json, decode, map[], cs)
    ensures k >= 0 && Complete(Store(json, decode, map[], cs)[k])
  {
    StoreSource(json, decode, map[], cs, k);
  }

  /** The entry loop of `parseInput`, with the object fields read by `ParseEntryObject`. */
  method ParseEntries(json: string) returns (entries: map<int, Entry>)
    ensures entries == ScanEntries(json)
  {
    entries := CollectEntries(json, ParseEntryObject);
  }

  /**
   * The entry loop of `parseInput` as written, for any reading `decode` of an
   * entry object: search for the next quote from just past the last position,
   * skip quotes that open no complete candidate, store complete entries under
   * `stoi` of their key.
   */
  method CollectEntries(json: string, decode: string -> Entry) returns (entries: map<int, Entry>)
    ensures entries == Store(json, decode, map[], Scan(json, 1))
  {
    entries := map[];
    var from: nat := 1;
    ghost var all := Store(json, decode, map[], Scan(json, 1));
    while FindFirstOf(json, {'"'}, from).Some?
      invariant from <= |json| + 1
      invariant Store(json, decode, entries, Scan(json, from)) == all
      decreases |json| + 1 - from
    {
      var pos := FindFirstOf(json, {'"'}, from).value;
      var candidate := NextCandidate(json, pos);
      if candidate.None? {
        SkipStep(json, decode, entries, from, pos);
        from := pos + 1;
        continue;
      }
      var c := candidate.value;
      PositionedInOrder(json, c);
      VisitStep(json, decode, entries, from, c);
      entries := StoreEntry(json, decode, entries, c);
      from := c.objEnd + 1;
    }
    DoneStep(json, decode, entries, from);
  }

  /** Once no double quote is left, nothing remains to be stored. */
  lemma DoneStep(json: string, decode: string -> Entry, entries: map<int, Entry>, from: nat)
    requires FindFirstOf(json, {'"'}, from).None?
    ensures Store(json, decode, entries, Scan(json, from)) == entries
  {
  }

  /** A quote that opens no complete candidate changes nothing still to be stored. */
  lemma SkipStep(json: string, decode: string -> Entry, entries: map<int, Entry>, from: nat, q: nat)
    requires FindFirstOf(json, {'"'}, from) == Some(q) && CandidateAt(json, q).None?
    ensures Store(json, decode, entries, Scan(json, q + 1)) == Store(json, decode, entries, Scan(json, from))
  {
    ScanStep(json, from, q);
  }

  /** Visiting the candidate found from `from` leaves the candidates after its closing brace. */
  lemma VisitStep(json: string, decode: string -> Entry, entries: map<int, Entry>, from: nat, c: Candidate)
    requires FindFirstOf(json, {'"'}, from) == Some(c.quote) && CandidateAt(json, c.quote) == Some(c)
    ensures Store(json, decode, Visit(json, decode, entries, c), Scan(json, c.objEnd + 1))
      == Store(json, decode, entries, Scan(json, from))
  {
    ScanStep(json, from, c.quote);
    StoreStep(json, decode, entries, c, Scan(json, c.objEnd + 1));
  }

  /**
   * The rest of one loop turn: read the entry object's fields and, when both
   * are non-empty, store the entry under `stoi` of the key text.
   */
  method StoreEntry(json: string, decode: string -> Entry, entries: map<int, Entry>, c: Candidate)
    returns (updated: map<int, Entry>)
    requires Positioned(json, c)
    ensures updated == Visit(json, decode, entries, c)
  {
    updated := entries;
    var entry := decode(ObjectText(json, c));
    if entry.base != "" && entry.value != "" {
      var keyStr := KeyText(json, c);
      KeyOfIsStoi(json, c);
      var key := Stoi(keyStr).value;
      updated := updated[key := entry];
    }
  }

  /** One step of the scan: the quote found from `from` opens a candidate or is skipped. */
  lemma ScanStep(json: string, from: nat, q: nat)
    requires FindFirstOf(json, {'"'}, from) == Some(q)
    ensures CandidateAt(json, q).None? ==> Scan(json, from) == Scan(json, q + 1)
    ensures CandidateAt(json, q).Some? ==>
      Scan(json, from) == [CandidateAt(json, q).value] + Scan(json, CandidateAt(json, q).value.objEnd + 1)
  {
  }

  /** Visiting a first candidate and then the rest is visiting them all. */
  lemma StoreStep(json: string, decode: string -> Entry, m: map<int, Entry>, c: Candidate, rest: seq<Candidate>)
    ensures Store(json, decode, m, [c] + rest) == Store(json, decode, Visit(json, decode, m, c), rest)
  {
    assert ([c] + rest)[1..] == rest;
  }

  /**
   * The searches of one loop turn: the closing key quote, then the `{`, then
   * the `}`; a quote not followed by a digit or a missing one gives up.
   */
  method NextCandidate(json: string, pos: nat) returns (candidate: Option<Candidate>)
    requires pos < |json| && json[pos] == '"'
    ensures candidate == CandidateAt(json, pos)
  {
    if !(pos + 1 < |json| && IsDigit(json[pos + 1])) {
      return None;
    }
    var keyEnd := FindFirstOf(json, {'"'}, pos + 1);
    if keyEnd.None? {
      return None;
    }
    var entryStart := FindFirstOf(json, {'{'}, keyEnd.value);
    if entryStart.None? {
      return None;
    }
    var entryEnd := FindFirstOf(json, {'}'}, entryStart.value);
    if entryEnd.None? {
      return None;
    }
    return Some(Candidate(pos, keyEnd.value, entryStart.value, entryEnd.value));
  }
}
