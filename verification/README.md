# Radix-encoded points: a Dafny model

`Solution.cpp` reads a JSON-like document. The document holds a `"keys"`
block with `n` and `k`, followed by numbered entries. Each entry gives an
ordinate as a digit string (`value`) in a base written as text (`base`).
The program turns every entry into an `(x, y)` point. This project models
the pure logic behind that, and proves properties of the model:

- `extractStringValue` (module `Extract`). It finds `"key":`, skips blanks,
  and returns either the quoted text or the bare text up to a delimiter. It
  is written on top of exact models of `std::string::find`,
  `find_first_of` and `find_first_not_of` (module `Search`).
- `std::stoi` as far as the program relies on it (module `Numerals`).
  Leading white space is skipped. An optional sign comes next, then the
  longest decimal digit run.
- `convertToDecimal` (module `Radix`). The right-to-left loop with a
  running power is written both as a function and as a method with the
  loop as in the source. The checks are the code's own: only
  `c - '0' >= base` is rejected. So bases below 2 pass, characters below
  `'0'` count as negative digits, and the empty string gives 0.
- The `parseInput` logic that runs after the file is read (modules
  `Input` and `Entries`):
  - the `"keys"` block, including the `size_t` wrap-around of its
    `substr` length when no `}` follows;
  - `n` and `k`;
  - the entry scan, lifted to a function of the text: quote positions,
    digit-led keys, the next `{…}` object, and storage of complete entries
    with later keys overwriting earlier ones.
- The `xyMap` assembly in `main` (module `Points`). Every entry is
  converted, and a failed conversion drops that point only.

`wrappers.dfy` holds the `Option` and `Result` types that replace C++
exceptions and `npos`.

`convertToDecimal` accepts bases below 2 and turns the empty digit string
into 0 (`Radix.ConvertEmpty`, `Radix.ConvertDigitCheckEdges`). Its only
digit check is `c - '0' >= base`. So characters below `'0'` pass as negative
digits, while a letter such as `'a'` (49) is rejected in every base up to 49.
It accumulates right to left, and `Radix.ConvertToDecimal` shows that this
equals left-to-right Horner evaluation.

## Model

| member | source | states |
|---|---|---|
| Search.Find | Solution.cpp:18 | `find` as a search from a start index; a match it returns starts at or after that index and fits in the text (first match: `FindIsFirst`) |
| Search.FindIsFirst | Solution.cpp:18 | `find` returns the first occurrence of the pattern at or after the start index, and `npos` only when there is none |
| Search.FindFirstOf | Solution.cpp:22 | `find_first_of`; an index it returns is in range, at or after the start, and holds one of the characters (first such index: `FindFirstOfIsFirst`) |
| Search.FindFirstOfIsFirst | Solution.cpp:22 | `find_first_of` returns the first index holding one of the characters, and `npos` only when no such index exists |
| Search.FindFirstNotOf | Solution.cpp:23 | `find_first_not_of`; an index it returns is in range, at or after the start, and holds none of the characters (first such index: `FindFirstNotOfIsFirst`) |
| Search.FindFirstNotOfIsFirst | Solution.cpp:23 | `find_first_not_of` skips exactly the leading run of the given characters |
| Search.FindFirstNotOfNone | Solution.cpp:23-24 | when only blanks remain, the skip finds nothing |
| Numerals.HornerIsPositional | Solution.cpp:118-131 | left-to-right Horner evaluation equals the positional sum Σ digit·base^(len-1-i) |
| Numerals.Stoi | Solution.cpp:116 | `stoi` as white-space skip, optional sign and decimal digit run; `None` stands for `invalid_argument` (properties: `StoiOfDigitLed`, `StoiOfToDigits`, `StoiOfNegative`) |
| Numerals.StoiOfDigitLed | Solution.cpp:99 | `stoi` of text starting with a digit succeeds with the value of its leading digit run |
| Numerals.StoiOfToDigits | Solution.cpp:116 | `stoi` reads back any non-negative number written in decimal |
| Numerals.StoiOfNegative | Solution.cpp:116 | `stoi` reads back a negative number written with a minus sign |
| Numerals.SkipSpacesDropsSpaces | Solution.cpp:116 | `stoi` drops exactly the leading white space before the number |
| Numerals.DigitPrefixIsLongestRun | Solution.cpp:99 | the digits `stoi` reads are the longest all-digit prefix of the text |
| Numerals.HornerOfToDigits | Solution.cpp:118-131 | evaluating the base-b numeral of n gives n back |
| Numerals.ToDigitsOfHorner | Solution.cpp:118-131 | writing the value of a canonical digit string in its base gives the string back |
| Radix.AccumulateRightToLeft | Solution.cpp:118-131 | the right-to-left loop started with power p succeeds exactly when every `c - '0'` is below the base, and then yields p times the Horner value |
| Radix.ConvertToDecimal | Solution.cpp:114-136 | succeeds exactly when `stoi` reads a base and every `c - '0'` is below it; the result is the left-to-right Horner value; a base text without a number fails |
| Radix.ConvertToDecimalLoop | Solution.cpp:114-136 | the loop as written (index from the last character down, `decimal += digit * power; power *= base`) returns what `ConvertToDecimal` specifies |
| Radix.ConvertIsPositional | Solution.cpp:118-131 | a successful conversion is the positional sum of the digits |
| Radix.ConvertEmpty | Solution.cpp:121-132 | the empty digit string converts to 0 when the base reads as a number |
| Radix.ConvertDigitCheckEdges | Solution.cpp:122-127 | `"5"` in base 2 fails; `'/'` passes the check as digit -1; base 1 is accepted |
| Radix.ConvertNonNumericBase | Solution.cpp:116 | one example: the base text `"b"` holds no number, so the conversion fails whatever the digits (the general case is the third ensures of `ConvertToDecimal`) |
| Radix.ConvertOfToDigits | Solution.cpp:114-136 | converting the base-b numeral of n, with b written in decimal, gives n |
| Radix.ToDigitsOfConvert | Solution.cpp:114-136 | a canonical digit string is the base-b numeral of its converted value |
| Radix.ConvertSamples | Solution.cpp:114-136 | `"111"` in base 2 is 7 and `"213"` in base 4 is 39 |
| Extract.ExtractStringValue | Solution.cpp:17-38 | `extractStringValue`: the empty string when `"key":` is absent; otherwise the value at the first non-blank after the key (`ExtractFromColon`, `ExtractAtValueStart`) |
| Extract.ExtractWithoutKey | Solution.cpp:18-19 | when `"key":` occurs nowhere in the text the value is the empty string |
| Extract.ColonFollowsKey | Solution.cpp:22 | the search for `"` or `:` just past the key stops on the pattern's own colon, so the `npos + 1` branch never arises |
| Extract.ExtractFromColon | Solution.cpp:18-23 | once `"key":` is found, the value is looked for from just past its colon |
| Extract.ExtractNothingAfterKey | Solution.cpp:23-24 | when only blanks follow `"key":` the result is empty |
| Extract.ExtractAtValueStart | Solution.cpp:17-38 | the result is the value that begins at the first non-blank character after `"key":` |
| Extract.ValueAt | Solution.cpp:26-36 | the value read from its first character, quoted or bare, lies within the text (its shape: `ValueAtIsValue`) |
| Extract.ValueAtIsValue | Solution.cpp:26-36 | a quoted value is the text up to the next `"` and holds no quote, or is empty when no quote closes it; a bare value is a contiguous run free of `, \t\n\r}` that ends at a delimiter or at the end of the text |
| Entries.PositionedInOrder | Solution.cpp:78-89 | a candidate's quote, key end, `{` and `}` are in text order and hold the characters searched for |
| Entries.KeyText | Solution.cpp:79-82 | the key text of a candidate starts with a digit |
| Entries.KeyOfIsStoi | Solution.cpp:99 | `stoi` of a candidate's key text never fails, and yields the non-negative key the entry is stored under |
| Entries.CandidateAtComplete | Solution.cpp:79-89 | every quote that is followed by a digit, a closing quote, a `{` and a `}` opens exactly that candidate |
| Entries.Scan | Solution.cpp:78-106 | the candidates the entry loop visits, in order: search for `"` from the start index, skip quotes that open nothing, resume past each `}` (properties: `ScanPositioned`, `ScanOrdered`, `ScanFinds`) |
| Entries.ScanFinds | Solution.cpp:78-89 | the scan misses no candidate: when every quote before a positioned candidate opens nothing, the scan visits that candidate first |
| Entries.CandidateAt | Solution.cpp:79-89 | a candidate is opened only by a quote followed by a digit, and only when a closing quote, a `{` and a `}` follow (the converse: `CandidateAtComplete`) |
| Entries.ScanPositioned | Solution.cpp:78-89 | every candidate the loop visits lies at or after the search start and sits where the searches put it |
| Entries.ScanOrdered | Solution.cpp:106 | each visited candidate's object closes before the next candidate's quote, so the scan position strictly increases |
| Entries.Visit | Solution.cpp:97-100 | one loop turn's store: the entry goes under `stoi` of the key text when base and value are both non-empty (`StoreEntry`) |
| Entries.Store | Solution.cpp:93-100 | the visits of a candidate sequence in order (contents: `StoreKeys`, `StoreLastWins`, `StoreSource`) |
| Entries.KeyOf | Solution.cpp:99 | the key of a candidate, `stoi` of its key text, is non-negative (`KeyOfIsStoi`) |
| Entries.StoreKeys | Solution.cpp:97-100 | a key is in the result exactly when it was there before or some stored candidate (both fields non-empty) carries it |
| Entries.StoreKeeps | Solution.cpp:100 | a key that no later stored candidate carries keeps its entry |
| Entries.StoreLastWins | Solution.cpp:100 | the last stored candidate with a given key decides that key's entry |
| Entries.StoreSource | Solution.cpp:93-100 | every stored value was there before or is the entry of a stored candidate with that key |
| Entries.StoreWellFormed | Solution.cpp:97-100 | from an empty map, every key is non-negative and every entry has non-empty base and value |
| Entries.CollectEntries | Solution.cpp:77-107 | the loop as written (search from `pos + 1`, skip a quote that opens no candidate, resume past `}`) builds the map the scan-and-store definition describes |
| Entries.ParseEntries | Solution.cpp:77-107 | the entry loop with `extractStringValue` on `"base"` and `"value"` builds the entries map of the whole text |
| Entries.StoreEntry | Solution.cpp:91-104 | one loop turn stores the object's entry under `stoi` of the key text when both fields are non-empty, and changes nothing otherwise |
| Entries.NextCandidate | Solution.cpp:79-89 | the loop body's checks and searches find exactly the candidate the scan specifies (that the scan misses none: `ScanFinds`) |
| Input.Substr | Solution.cpp:59 | `substr` returns the characters of the text from `pos` on: `count` of them, or all that remain |
| Input.KeysBlock | Solution.cpp:59 | the keys block is a slice of the text that starts at `"keys":` |
| Input.KeysBlockClosed | Solution.cpp:59 | with a `}` after `"keys":`, the keys block runs from the key through that brace |
| Input.KeysBlockUnclosed | Solution.cpp:59 | without a `}`, the `size_t` length wraps: the block is the rest of the text, or empty when `"keys":` starts the text |
| Input.ParseInput | Solution.cpp:52-107 | a successful parse carries the entries map of the entry scan |
| Input.ParseInputOutcome | Solution.cpp:52-74 | `parseInput` fails with "keys missing" exactly when `"keys":` occurs nowhere; otherwise with "missing n or k" exactly when either extracts empty from the keys block; otherwise with "invalid n or k" exactly when `stoi` rejects either; and otherwise succeeds with both values and the scanned entries |
| Input.ParseInputWithoutKeys | Solution.cpp:52-56 | text without `"keys":` fails before any entry is read |
| Input.ParseInputKeysAtStartUnclosed | Solution.cpp:59-66 | text that starts with `"keys":` and has no `}` fails for want of `n` and `k` |
| Points.Decode | Solution.cpp:165 | one entry's conversion, `convertToDecimal(value, base)` |
| Points.Points | Solution.cpp:161-170 | the `(x, y)` map: each entry key whose conversion succeeds, with that value (contents: `PointsMeaning`) |
| Points.PointsMeaning | Solution.cpp:161-170 | x has a point exactly when x is an entry key whose base reads as a number and whose digits all lie below it; the point is the Horner value of the digits |
| Points.AssemblePoints | Solution.cpp:161-170 | the loop over the entries yields a map whose keys are exactly the entry keys whose conversion succeeds, each holding that conversion's value |
| Points.AssembleStep | Solution.cpp:163-169 | visiting one more entry adds its point if it converts and leaves the map unchanged otherwise |
| Points.PointsDropFailure | Solution.cpp:164-169 | an entry that fails to convert removes only its own key from the map |
| Points.PointsSetSuccess | Solution.cpp:164-166 | an entry that converts sets its own point and changes no other point |
| Points.PointsSample | Solution.cpp:161-170 | entries 2 → ("2", "111") and 6 → ("4", "213") give points 7 and 39; entry 3 → ("2", "5") is dropped |

## Left out

- Reading the file (`ifstream`, `rdbuf`, lines 40-49), `cin`, and all console output. `Input.ParseInput` takes the text already read.
- Numerals.Stoi: has no range check. `std::stoi` throws `out_of_range` beyond the 32-bit `int` range. In the source that makes `parseInput` fail for `n` or `k` (lines 68-74), skips the entry with a warning for a key (lines 101-103), and fails the conversion for a base (line 133). The model reads every digit run as an unbounded integer.
- Radix.ConvertToDecimal: computes with unbounded integers. The source's 32-bit `decimal` and `power` can overflow, which is undefined behaviour in C++.
- Characters are Dafny `char`s rather than signed bytes. `isdigit` and `c - '0'` are modelled on the character code, as in the C locale for ASCII text.
- Radix.ConvertError: the model keeps two error kinds. The source rethrows both as one `invalid_argument`, and the point loop treats them alike.
- Points.AssemblePoints: visits the keys in an unspecified order, where `std::map` iterates in ascending key order. Each key is decoded on its own, so the resulting map does not depend on the order.
- The warning and error messages written to `cerr`, and the printing of the parsed data and of the points.
- Polynomial fitting is not part of the source and not part of this model.
