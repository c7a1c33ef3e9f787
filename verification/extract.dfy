/**
 * `extractStringValue`: the value that follows `"key":` in a JSON-like text,
 * found by plain substring search rather than by parsing.
 */
module Extract {
  import opened Wrappers
  import opened Search

  /** The blanks skipped between the colon and the value. */
  const Blanks: set<char> := {' ', '\t', '\n', '\r'}

  /** The characters that end an unquoted value. */
  const ValueDelimiters: set<char> := {',', ' ', '\t', '\n', '\r', '}'}

  /** The text searched for: the key in double quotes followed by a colon. */
  function KeyPattern(key: string): string {
    "\"" + key + "\":"
  }

  /** `v` is the first non-blank index after the first occurrence of `"key":`. */
  predicate ValueStart(json: string, key: string, v: int) {
    match Find(json, KeyPattern(key), 0)
    case None => false
    case Some(kp) =>
      && kp + |key| + 3 <= v < |json|
      && json[v] !in Blanks
      && forall j :: kp + |key| + 3 <= j < v ==> json[j] in Blanks
  }

  /** The first occurrence of `"key":` is followed by nothing but blanks. */
  predicate NothingAfterKey(json: string, key: string) {
    match Find(json, KeyPattern(key), 0)
    case None => false
    case Some(kp) => forall j :: kp + |key| + 3 <= j < |json| ==> json[j] in Blanks
  }

  /** Some double quote follows index `v`. */
  predicate QuoteAfter(json: string, v: nat) {
    exists j :: v < j < |json| && json[j] == '"'
  }

  /**
   * `r` is the quoted value opening at `json[v]`: the text up to the next double
   * quote, or empty when no closing quote follows.
   */
  predicate QuotedValue(json: string, v: nat, r: string) {
    && '"' !in r
    && if QuoteAfter(json, v) then
         v + 1 + |r| < |json| && json[v + 1..v + 1 + |r|] == r && json[v + 1 + |r|] == '"'
       else
         r == ""
  }

  /**
   * `r` is the unquoted value starting at `json[v]`: the longest run of
   * non-delimiters there, ending at a delimiter or at the end of the text.
   */
  predicate BareValue(json: string, v: nat, r: string) {
    && v + |r| <= |json|
    && json[v..v + |r|] == r
    && (forall i :: 0 <= i < |r| ==> r[i] !in ValueDelimiters)
    && (v + |r| == |json| || json[v + |r|] in ValueDelimiters)
  }

  /** `find_first_of("\":", …)` just past the key stops on the pattern's own colon. */
  lemma ColonFollowsKey(json: string, key: string, kp: nat)
    requires OccursAt(json, KeyPattern(key), kp)
    ensures FindFirstOf(json, {'"', ':'}, kp + |key| + 2) == Some(kp + |key| + 2)
  {
    var pat := KeyPattern(key);
    assert pat[|key| + 2] == ':';
    assert json[kp + |key| + 2] == pat[|key| + 2];
    FindFirstOfIs(json, {'"', ':'}, kp + |key| + 2, kp + |key| + 2);
  }

  /** The value of `key` in `json`, or empty when the key is absent or has no usable value. */
  function ExtractStringValue(json: string, key: string): (r: string)
    ensures Find(json, KeyPattern(key), 0).None? ==> r == ""
  {
    match Find(json, KeyPattern(key), 0)
    case None => ""
    case Some(kp) => ValueAfterKey(json, key, kp)
  }

  /** The value after the `"key":` found at `kp`, looked for past the next double quote or colon. */
  function ValueAfterKey(json: string, key: string, kp: nat): string {
    var colon := FindFirstOf(json, {'"', ':'}, kp + |key| + 2);
    // `npos + 1` wraps to 0 in the source; ColonFollowsKey shows the search never fails
    ValueFrom(json, if colon.Some? then colon.value + 1 else 0)
  }

  /** The value found by skipping blanks from `start`, or empty when only blanks remain. */
  function ValueFrom(json: string, start: nat): (r: string)
    ensures |r| <= |json|
  {
    match FindFirstNotOf(json, Blanks, start)
    case None => ""
    case Some(v) => ValueAt(json, v)
  }

  /** The colon search after the first `"key":` stops on that key's colon. */
  lemma ColonAfterFirstKey(json: string, key: string, kp: nat)
    requires Find(json, KeyPattern(key), 0) == Some(kp)
    ensures FindFirstOf(json, {'"', ':'}, kp + |key| + 2) == Some(kp + |key| + 2)
  {
    FindOccurs(json, KeyPattern(key), 0);
    ColonFollowsKey(json, key, kp);
  }

  /** Once `"key":` is found at `kp`, the value is looked for from just past its colon. */
  lemma ExtractFromColon(json: string, key: string, kp: nat)
    requires Find(json, KeyPattern(key), 0) == Some(kp)
    ensures ExtractStringValue(json, key) == ValueFrom(json, kp + |key| + 3)
  {
    ColonAfterFirstKey(json, key, kp);
    assert ExtractStringValue(json, key) == ValueAfterKey(json, key, kp);
  }

  /** A key whose `"key":` pattern occurs nowhere in the text has the empty value. */
  lemma ExtractWithoutKey(json: string, key: string)
    requires forall i :: !OccursAt(json, KeyPattern(key), i)
    ensures ExtractStringValue(json, key) == ""
  {
    FindIsFirst(json, KeyPattern(key), 0);
  }

  /** When only blanks follow `"key":`, the extracted value is empty. */
  lemma ExtractNothingAfterKey(json: string, key: string)
    requires NothingAfterKey(json, key)
    ensures ExtractStringValue(json, key) == ""
  {
    var kp := Find(json, KeyPattern(key), 0).value;
    ExtractFromColon(json, key, kp);
    FindFirstNotOfNone(json, Blanks, kp + |key| + 3);
  }

  /** The extracted value is the value at the first non-blank character after `"key":`. */
  lemma ExtractAtValueStart(json: string, key: string, v: nat)
    requires ValueStart(json, key, v)
    ensures ExtractStringValue(json, key) == ValueAt(json, v)
  {
    var kp := Find(json, KeyPattern(key), 0).value;
    ExtractFromColon(json, key, kp);
    FindFirstNotOfIs(json, Blanks, kp + |key| + 3, v);
  }

  /**
   * The value whose first non-blank character is `json[v]`: quoted text when
   * that character is a double quote, otherwise a run of non-delimiters.
   */
  function ValueAt(json: string, v: nat): (r: string)
    requires v < |json|
    ensures v + |r| <= |json|
  {
    if json[v] == '"' then
      match FindFirstOf(json, {'"'}, v + 1)
      case None => ""
      case Some(e) => json[v + 1..e]
    else
      var e := match FindFirstOf(json, ValueDelimiters, v)
               case Some(e) => e
               case None => |json|;
      json[v..e]
  }

  /** A quoted value runs to the next double quote; a bare one to the next delimiter. */
  lemma ValueAtIsValue(json: string, v: nat)
    requires v < |json|
    ensures json[v] == '"' ==> QuotedValue(json, v, ValueAt(json, v))
    ensures json[v] != '"' ==> BareValue(json, v, ValueAt(json, v))
  {
    if json[v] == '"' {
      QuotedValueAt(json, v);
    } else {
      BareValueAt(json, v);
    }
  }

  /** The quoted case of ValueAtIsValue. */
  lemma QuotedValueAt(json: string, v: nat)
    requires v < |json| && json[v] == '"'
    ensures QuotedValue(json, v, ValueAt(json, v))
  {
    FindFirstOfIsFirst(json, {'"'}, v + 1);
  }

  /** The bare case of ValueAtIsValue. */
  lemma BareValueAt(json: string, v: nat)
    requires v < |json| && json[v] != '"'
    ensures BareValue(json, v, ValueAt(json, v))
  {
    FindFirstOfIsFirst(json, ValueDelimiters, v);
  }
}
