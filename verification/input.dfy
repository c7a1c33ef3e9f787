/**
 * `parseInput` on the text of the input file: the `"keys"` block with `n` and
 * `k`, then the entry scan. Opening and reading the file, and the messages on
 * the error stream, are not part of this module.
 */
module Input {
  import opened Wrappers
  import opened Numerals
  import opened Search
  import opened Extract
  import opened Entries

  /** `std::string::npos`, the largest `size_t`. */
  const Npos: nat := 0xFFFF_FFFF_FFFF_FFFF

  /** Why `parseInput` returns false. */
  datatype ParseError =
    | KeysBlockMissing   // no `"keys":` in the text
    | MissingNOrK        // `n` or `k` reads as empty in the keys block
    | InvalidNOrK        // `stoi` rejects `n` or `k`

  /** What a successful `parseInput` leaves in `data`. */
  datatype ParsedData = ParsedData(n: int, k: int, entries: map<int, Entry>)

  /** `s.substr(pos, count)`: up to `count` characters from `pos`. */
  function Substr(s: string, pos: nat, count: nat): (r: string)
    requires pos <= |s|
    ensures |r| <= count && pos + |r| <= |s|
    ensures |r| == count || pos + |r| == |s|
    ensures r == s[pos..pos + |r|]
  {
    if count < |s| - pos then s[pos..pos + count] else s[pos..]
  }

  /**
   * The length `parseInput` asks `substr` for: the distance to the first `}`
   * from the start of the keys block, plus one, in `size_t` arithmetic, so that
   * a missing `}` (`npos`) wraps around.
   */
  function KeysBlockCount(json: string, keysStart: nat): nat {
    var close := match FindFirstOf(json, {'}'}, keysStart) case None => Npos case Some(e) => e;
    (close - keysStart + 1) % (Npos + 1)
  }

  /** The keys block: from `"keys":` through the first `}` after it. */
  function KeysBlock(json: string, keysStart: nat): (r: string)
    requires keysStart <= |json|
    ensures keysStart + |r| <= |json| && r == json[keysStart..keysStart + |r|]
  {
    Substr(json, keysStart, KeysBlockCount(json, keysStart))
  }

  /** With a `}` after `"keys":` the block runs from the key through that brace. */
  lemma KeysBlockClosed(json: string, keysStart: nat, close: nat)
    requires keysStart <= |json| < Npos
    requires FindFirstOf(json, {'}'}, keysStart) == Some(close)
    ensures KeysBlock(json, keysStart) == json[keysStart..close + 1]
  {
    assert KeysBlockCount(json, keysStart) == close - keysStart + 1;
    assert KeysBlock(json, keysStart) == Substr(json, keysStart, close - keysStart + 1);
  }

  /**
   * Without a `}` the length wraps to `2^64 - keysStart`: the rest of the text
   * when the block starts past the first character, nothing when it starts at
   * the first.
   */
  lemma KeysBlockUnclosed(json: string, keysStart: nat)
    requires keysStart <= |json| < Npos
    requires FindFirstOf(json, {'}'}, keysStart).None?
    ensures keysStart > 0 ==> KeysBlock(json, keysStart) == json[keysStart..]
    ensures keysStart == 0 ==> KeysBlock(json, keysStart) == ""
  {
    assert KeysBlockCount(json, keysStart) == (Npos - keysStart + 1) % (Npos + 1);
  }

  /** `parseInput` on the text of the file. */
  function ParseInput(json: string): (r: Result<ParsedData, ParseError>)
    ensures r.Success? ==> r.value.entries == ScanEntries(json)
  {
    match Find(json, "\"keys\":", 0)
    case None => Failure(KeysBlockMissing)
    case Some(keysStart) =>
      var block := KeysBlock(json, keysStart);
      var nStr := ExtractStringValue(block, "n");
      var kStr := ExtractStringValue(block, "k");
      if nStr == "" || kStr == "" then Failure(MissingNOrK)
      else
        match Stoi(nStr)
        case None => Failure(InvalidNOrK)
        case Some(n) =>
          match Stoi(kStr)
          case None => Failure(InvalidNOrK)
          case Some(k) => Success(ParsedData(n, k, ScanEntries(json)))
  }

  /**
   * When `parseInput` fails and why: no `"keys":` anywhere; otherwise `n` or
   * `k` reading as empty in the keys block; otherwise `stoi` rejecting either.
   * In every other case it succeeds with both numbers and the scanned entries.
   */
  lemma ParseInputOutcome(json: string)
    ensures ParseInput(json) == Failure(KeysBlockMissing) <==> forall i :: !OccursAt(json, "\"keys\":", i)
    ensures Find(json, "\"keys\":", 0).Some? ==>
      var block := KeysBlock(json, Find(json, "\"keys\":", 0).value);
      var nStr := ExtractStringValue(block, "n");
      var kStr := ExtractStringValue(block, "k");
      && (ParseInput(json) == Failure(MissingNOrK) <==> nStr == "" || kStr == "")
      && (ParseInput(json) == Failure(InvalidNOrK) <==>
            nStr != "" && kStr != "" && (Stoi(nStr).None? || Stoi(kStr).None?))
      && (ParseInput(json).Success? <==>
            nStr != "" && kStr != "" && Stoi(nStr).Some? && Stoi(kStr).Some?)
      && (ParseInput(json).Success? ==>
            ParseInput(json).value == ParsedData(Stoi(nStr).value, Stoi(kStr).value, ScanEntries(json)))
  {
    FindIsFirst(json, "\"keys\":", 0);
    if Find(json, "\"keys\":", 0).Some? {
      FindOccurs(json, "\"keys\":", 0);
    }
  }

  /** Without `"keys":` anywhere in the text `parseInput` fails before looking at any entry. */
  lemma ParseInputWithoutKeys(json: string)
    requires forall i :: !OccursAt(json, "\"keys\":", i)
    ensures ParseInput(json) == Failure(KeysBlockMissing)
  {
    FindIsFirst(json, "\"keys\":", 0);
  }

  /**
   * A text that starts with `"keys":` and has no `}` at all fails for want of
   * `n` and `k`, although both may follow: the block length has wrapped to zero.
   */
  lemma ParseInputKeysAtStartUnclosed(json: string)
    requires |json| < Npos
    requires |json| >= 7 && json[..7] == "\"keys\":"
    requires forall i :: 0 <= i < |json| ==> json[i] != '}'
    ensures ParseInput(json) == Failure(MissingNOrK)
  {
    assert OccursAt(json, "\"keys\":", 0);
    FindFirstOfIsFirst(json, {'}'}, 0);
    KeysBlockUnclosed(json, 0);
  }
}
