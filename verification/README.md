# matrix_calc — a Dafny model of the row-operation calculator

`matrix_calc` is an interactive calculator for elementary row operations. A
`Matrix` holds a rectangular grid of exact fractions and a running
`checksum`. The checksum is meant to equal the sum over every cell of
`(row + column) * value`, and each mutation updates it incrementally. Input
lines such as `s R0 R1`, `m 2 R1` or `r -3 R0 R2` are parsed into
`Operations` values and applied with `Matrix::operate`.

This project models both halves of that core:

- **`Text`** (`text.dfy`): the string primitives the parser is built from.
  - `split_once` on a character.
  - ASCII `to_lowercase`.
  - Deleting every `r` from a token.
  - `parse::<usize>` and `Display for usize` on a 64-bit target.
- **`Operations`** (`operations.dfy`): the `Operations` enum, the total parser
  `TryFrom<&str>` (as `TryFrom`) and `Display` (as `Render`). Parse errors are
  tags, one per message template, each carrying the value the template
  prints. The swap branch's "to `usize`" message (`NotUsize`) is a different
  template from the "Failed to parse" message that the `m` and `r`
  branches share between a bad scaler and a bad row token (`NotParsed`).
- **`Grid`** (`grid.dfy`):
  - the cell grid and its `Rectangular` shape predicate;
  - `calc_checksum` (as `CalcChecksum`);
  - the ghost `Digest`: the sum of `CalcChecksum(row, column, value)` over every cell;
  - lemmas saying how the digest moves when one cell, one row or two rows change.
- **`Matrices`** (`matrices.dfy`): `Matrix` as the code is written.
  - The operations are `new`, `from_iter`, `insert_row`, `check_xy`, `get`,
    `set`, `operate` (swap, multiply, replace-with-multiple, help), `width`,
    `height` and `PartialEq`.
  - Each mutator returns an `Outcome`: `Applied(after)`,
    `Rejected(after, error)` or `Panicked`.
  - `Rejected` carries the state the call leaves behind, because a rejected
    `insert_row` has already changed the checksum.
  - An unchecked `Vec` index in `Multiply` or `ReplaceWithMultiple` is the
    `Panicked` outcome.
- **`Corrected`** (`corrected.dfy`): the same operations with the checksum
  bookkeeping the design evidently intends. Every mutation moves the checksum
  by exactly the change in the digest (`Tracks`), so a matrix whose checksum
  matches its cells (`Consistent`) keeps matching. The module also holds
  small concrete matrices on which the code as written loses track; see
  "Findings".

Dafny's `real` is an exact rational, which matches `fraction::Fraction`. The
scaler of `m` and `r` is an `f64` in the source. Reading it from text is a
floating-point library call, so it enters the model as a parameter
`parseScalar: string -> Option<real>`. Rendering it is modelled the same
way, as a parameter `showScalar`.

Every index operation on cells requires `Rectangular(elements)`. This is not
an extra demand on callers. `elements` is a private field, only `insert_row`
adds rows, and it keeps every row as long as the first. `New` and `FromIter`
establish the invariant, and every mutator is proved to keep it.

## Model

| member | source | states |
|---|---|---|
| Text.SplitOnce | src/operations.rs:24 | `None` exactly when the separator does not occur; otherwise the input is prefix, separator, suffix, with no separator in the prefix (the split is at the first occurrence) |
| Text.SplitOnceAt | src/operations.rs:42-49 | splitting `a + [c] + b` where `a` has no `c` gives back exactly `(a, b)` |
| Text.Lower | src/operations.rs:27 | same length; no upper-case ASCII letter remains; other characters are kept; upper-case letters move down by 32 |
| Text.Strip | src/operations.rs:52-55 | the result is no longer than the input and holds no deleted character |
| Text.StripMembers | src/operations.rs:52-55 | a character is in the result exactly when it is in the input and is not the deleted one |
| Text.StripConcat | src/operations.rs:52-55 | deleting a character distributes over concatenation |
| Text.Normalize | src/operations.rs:51-60 | a normalised row token holds no `r` or `R`, is no longer than the token, and keeps every other character that was not upper-case; that it lower-cases the other upper-case letters and keeps order is stated by Text.NormalizeConcat, Text.NormalizeChar, Text.NormalizeAt and Text.NormalizeKeeps |
| Text.NormalizeConcat | src/operations.rs:51-60 | lower-casing and filtering work character by character, so normalising a concatenation normalises each part in order |
| Text.NormalizeChar | src/operations.rs:51-60 | a single character becomes its lower-case form, and disappears when that form is `r` |
| Text.NormalizeAt | src/operations.rs:51-60 | the normal form of a token is the normal form of the part before position `i`, then the lower-cased character at `i` unless it is `r`, then the normal form of the rest |
| Text.NormalizeKeeps | src/operations.rs:51-60 | every character whose lower-case form is not `r` appears, lower-cased, in the normal form |
| Text.ParseUsize | src/operations.rs:62-67 | only a non-empty token of digits, optionally behind one `+`, parses |
| Text.Dec | src/operations.rs:150 | the decimal rendering of a number is a non-empty digit string without a leading zero |
| Text.DigitsValueDec | src/operations.rs:150 | the digits of the rendering of `n` have value `n` |
| Text.ParseDec | src/operations.rs:62-67 | `parse::<usize>` reads back the decimal rendering of every `usize` |
| Text.DecInjective | src/operations.rs:150 | two numbers with the same rendering are equal |
| Text.NormalizeDigits | src/operations.rs:51-60 | a digit string is its own normal form |
| Text.NormalizeDropsPrefix | src/operations.rs:51-60 | a leading `R` or `r` in front of digits is dropped by normalisation |
| Text.NormalizeWrapped | src/operations.rs:51-60 | an `r` on each side of a digit string is dropped by normalisation |
| Operations.ParseSwap | src/operations.rs:41-70 | the operands of `s` only ever give a `SwapRows` |
| Operations.ParseMultiply | src/operations.rs:71-94 | the operands of `m` only ever give a `Multiply` |
| Operations.ParseReplace | src/operations.rs:95-140 | the operands of `r` only ever give a `ReplaceWithMultiple` |
| Operations.ParseRow | src/operations.rs:51-67 | a row token that is accepted holds only digits, `+`, `r` and `R`; in particular no space and no other letter |
| Operations.TryFrom | src/operations.rs:23-143 | a line without a space is accepted exactly when it lower-cases to `h` or `help`; every operation other than help comes from a line holding a space; an incomplete-instruction error names the lower-cased line. Per input shape the result is stated by Operations.NoSpaceLine, Operations.KeywordDecides, the `*LineParses`/`*LineShape` pairs, the `*BadToken` and `*Missing*` lemmas and Operations.SwapRoundTrip |
| Operations.Render | src/operations.rs:146-165 | only help renders without a space; for swaps the rendering is injective and splits at its first space (Operations.RenderSwapInjective, Operations.RenderSwapSplits, Operations.RenderSwapNotReparsed) |
| Operations.Dispatch | src/operations.rs:39-141 | a swap, multiply or replace comes only from the keyword `s`, `m` or `r` (after lower-casing) and its operand parser |
| Operations.RowTokenHasNoSpace | src/operations.rs:62-67 | a row token that parses holds no space |
| Operations.TryFromKeyword | src/operations.rs:24-39 | every accepted non-help line holds a space, and its result is decided by the text before and after the first space |
| Operations.NoSpaceLine | src/operations.rs:24-40 | a line without a space is accepted exactly when it lower-cases to `h` or `help`, giving `ShowHelp`, and is otherwise rejected naming its lower-cased form |
| Operations.KeywordDecides | src/operations.rs:39-141 | with a space present, `h`/`help` in any case give `ShowHelp` whatever follows, and a keyword outside `h`, `help`, `s`, `m`, `r` is rejected by name |
| Operations.SwapLineParses | src/operations.rs:41-69 | `s` plus two row tokens is accepted exactly when both tokens read as rows, and gives the swap of those rows |
| Operations.SwapLineShape | src/operations.rs:41-69 | every line read as a swap is the keyword `s` in either case and two row tokens, joined by single spaces, none holding a space, each token reading as its row |
| Operations.SwapRoundTrip | src/operations.rs:41-69 | `s a b` and `S Ra Rb`, with `a` and `b` in decimal, parse to `SwapRows(a, b)` for every pair of `usize` values |
| Operations.SwapRoundTripBare | src/operations.rs:41-69 | `s a b` with decimal rows parses to `SwapRows(a, b)` |
| Operations.SwapRoundTripPrefixed | src/operations.rs:41-69 | `S Ra Rb` with decimal rows parses to `SwapRows(a, b)` |
| Operations.SwapWrappedRoundTrip | src/operations.rs:51-67 | `s r<a>r <b>` parses to `SwapRows(a, b)`: every `r` of a row token is deleted, wherever it stands |
| Operations.DecIsRowToken | src/operations.rs:51-67 | a decimal rendering is a space-free row token for its own value |
| Operations.PrefixedDecIsRowToken | src/operations.rs:51-67 | so is a decimal rendering behind an `R` |
| Operations.SwapBadToken | src/operations.rs:62-67 | a swap whose first row token does not parse is rejected naming that token's normal form; if the first parses and the second does not, the second's normal form is named |
| Operations.MultiplyBadToken | src/operations.rs:81-91 | `m` with a scaler that does not parse is rejected naming the scaler as typed; with a good scaler and a row token that does not parse, naming the row token as typed |
| Operations.ReplaceBadToken | src/operations.rs:114-132 | `r` checks the scaler, then the source row, then the target row, and is rejected naming the first token that does not parse, as typed |
| Operations.LetterToken | src/operations.rs:51-67 | a token holding an ASCII letter other than `r`/`R` is not a row token: the letter is lower-cased and kept by normalisation (so `X1` becomes `x1`), and no number contains it |
| Operations.MultiplyLineParses | src/operations.rs:71-94 | `m` plus a scaler token and a row token is accepted exactly when both parse, and gives that multiplication |
| Operations.MultiplyLineShape | src/operations.rs:71-94 | every line read as a multiplication is `m`, a scaler token, a space and a row token |
| Operations.ReplaceLineParses | src/operations.rs:95-140 | `r` plus a scaler and two row tokens is accepted exactly when all three parse, each from its own token |
| Operations.ReplaceLineShape | src/operations.rs:95-140 | every line read as a replacement is `r` and three space-separated tokens that read as its scaler and rows |
| Operations.SwapMissingToken | src/operations.rs:42-49 | `s` with a single operand is rejected for lack of a second space |
| Operations.SwapExtraToken | src/operations.rs:62-67 | `s` with three operands is rejected: the last token still holds a space |
| Operations.MultiplyMissingToken | src/operations.rs:72-79 | `m` with a single operand is rejected |
| Operations.ReplaceMissingTokens | src/operations.rs:96-112 | `r` with one or two operands is rejected, with the message for the missing part |
| Operations.RenderSwapSplits | src/operations.rs:150 | a rendered swap splits at its first space into `R<lhs>` and `<-> R<rhs>` |
| Operations.RenderSwapInjective | src/operations.rs:150 | different swaps render differently |
| Operations.RenderSwapNotReparsed | src/operations.rs:150 | a rendered swap does not parse back: `R<lhs>` is taken as an unknown keyword |
| Grid.RowDigestToUpdate | src/matrix.rs:141-146 | overwriting cell `j` moves every partial row digest that covers `j` by the change in that cell's term, and leaves the others alone |
| Grid.RowDigestToLinear | src/matrix.rs:230-233 | cells `p[j] + q[j] * s` have digest `p`'s plus `s` times `q`'s |
| Grid.DigestToReplaceRow | src/matrix.rs:178 | replacing row `k` moves every partial digest that covers `k` by the change in that row's digest |
| Grid.RowDigestStep | src/matrix.rs:86-93 | the running checksum sum over a row grows by the next cell's term |
| Grid.RowDigestUpdate | src/matrix.rs:141-146 | overwriting one cell moves a row's digest by the new term minus the old one |
| Grid.CalcChecksum | src/matrix.rs:252-254 | the term of a cell splits into a row part and a column part, each proportional to the value; a zero cell contributes nothing. The property the checksum proofs rely on, linearity in the value, is its partner Grid.CalcChecksumLinear |
| Grid.CalcChecksumLinear | src/matrix.rs:252-254 | the checksum term is linear in the cell value |
| Grid.Scale | src/matrix.rs:213-217 | a scaled row has the same length, each cell multiplied by the scaler |
| Grid.AddScaled | src/matrix.rs:224-233 | each target cell plus the scaler times the matching source cell, same length as the target |
| Grid.RowDigestScale | src/matrix.rs:208-218 | scaling a row scales its digest |
| Grid.RowDigestAddScaled | src/matrix.rs:219-234 | adding `s` times a source row adds `s` times its digest |
| Grid.DigestReplaceRow | src/matrix.rs:178 | replacing one row moves the digest by that row's new digest minus its old one |
| Grid.DigestAppend | src/matrix.rs:80-109 | appending a row at index `height` adds its digest at that index |
| Grid.DigestUpdate | src/matrix.rs:138-149 | overwriting one cell moves the digest by the new term minus the old one |
| Grid.Exchange | src/matrix.rs:178 | `Vec::swap`: the two rows trade places and every other row stays |
| Grid.ExchangeTwice | src/matrix.rs:178 | exchanging the same two rows twice restores the grid |
| Grid.ExchangeRectangular | src/matrix.rs:178 | exchanging rows keeps the grid rectangular |
| Grid.ReplacedRectangular | src/matrix.rs:145 | replacing a row by one of the same length keeps the grid rectangular |
| Grid.DigestExchange | src/matrix.rs:178-206 | after an exchange each row's digest is taken at the other's index |
| Grid.DigestScaleRow | src/matrix.rs:208-218 | scaling row `k` by `s` replaces its digest with `s` times it |
| Grid.DigestAddScaledRow | src/matrix.rs:219-234 | adding `s` times a source into row `k` adds `s` times the source's digest at `k` |
| Grid.AddScaledSelf | src/matrix.rs:224-233 | adding `s` times a row to itself scales it by `1 + s` |
| Grid.ScaleFirst | src/matrix.rs:214-217 | after `i` columns of `Multiply`, the cells before `i` are scaled and the rest untouched |
| Grid.AddScaledFirst | src/matrix.rs:230-233 | after `i` columns of `ReplaceWithMultiple`, the cells before `i` have the source added and the rest are untouched |
| Grid.ScaleFirstFacts | src/matrix.rs:214-217 | no column done is the row itself, all columns done is the scaled row, and one more column writes exactly cell `i` |
| Grid.AddScaledFirstFacts | src/matrix.rs:230-233 | the same three facts for `ReplaceWithMultiple` |
| Grid.ScaleStepCells | src/matrix.rs:214-217 | writing the scaled value of cell `i` into a row scaled up to column `i` gives the row scaled up to column `i + 1`, the other rows untouched |
| Grid.AddScaledStepCells | src/matrix.rs:230-233 | writing cell `i` plus `s` times the source's cell `i` into a row added into up to column `i` gives the row added into up to column `i + 1`, the other rows untouched |
| Grid.ScaleTotalStep | src/matrix.rs:214-217 | after each column of `Multiply` the checksum has moved by `(1 - s)` times the terms of the columns done |
| Grid.AddTotalStep | src/matrix.rs:230-233 | after each column of `ReplaceWithMultiple` the checksum has lost `s` times the source terms of the columns done |
| Grid.ScaleMirror | src/matrix.rs:208-218 | the checksum change of `Multiply` is minus the change in the digest |
| Grid.AddScaledMirror | src/matrix.rs:219-234 | the checksum change of `ReplaceWithMultiple` is minus the change in the digest |
| Matrices.Height | src/matrix.rs:247-249 | zero exactly for the matrix without rows, the case in which `width` is `None` |
| Matrices.Width | src/matrix.rs:243-245 | `None` exactly when there are no rows; otherwise the length of the first row, which on a rectangular grid is the length of every row |
| Matrices.New | src/matrix.rs:54-59 | no rows, no width, checksum 0, rectangular and consistent |
| Matrices.InsertRow | src/matrix.rs:80-109 | accepted exactly when there are no rows or the row has the established width; accepted rows are appended at index `height`; a rejected row leaves the cells unchanged and names both widths; in both cases the checksum gains the row's terms; shape is kept, and consistency on acceptance |
| Matrices.FromIter | src/matrix.rs:61-78 | succeeds exactly on rectangular input, giving those rows with a consistent checksum; otherwise fails on the first row of a different length |
| Matrices.InsertNext | src/matrix.rs:73-75 | one step of `from_iter`: the next row is appended keeping consistency, or is the first row of a different length |
| Matrices.CheckXY | src/matrix.rs:111-136 | accepts exactly the in-range cells, names the row or column that is out of range, and never reaches the empty-row branch |
| Matrices.Get | src/matrix.rs:151-154 | succeeds exactly for in-range cells, with the cell's value; otherwise returns the bounds-check error |
| Matrices.Set | src/matrix.rs:138-149 | succeeds exactly for in-range cells; a rejection changes nothing; on success the checksum moves by the old term minus the new one; shape is kept |
| Matrices.SetMirrorsDigest | src/matrix.rs:141-146 | as written, an in-range `set` moves the checksum by minus the change in the digest |
| Matrices.SetWritesOneCell | src/matrix.rs:145 | `set` writes exactly the cell it names and keeps every other cell and every row length |
| Matrices.SetIsUpdate | src/matrix.rs:145 | an in-range `set` is the update of one cell |
| Matrices.SwapRows | src/matrix.rs:162-207 | an out-of-range index is rejected with the matrix unchanged, `lhs` checked first; otherwise the rows are exchanged and the two checksum loops cancel, leaving the checksum as it was |
| Matrices.SwapTwiceRestores | src/matrix.rs:162-207 | swapping the same two rows twice gives back the matrix, checksum included |
| Matrices.Multiply | src/matrix.rs:208-218 | an out-of-range row panics; otherwise that row is scaled, every other row is kept, and the checksum moves by `(1 - s)` times the row's digest |
| Matrices.MultiplyCell | src/matrix.rs:214-217 | one `get` and one `set` advance `Multiply` by one column |
| Matrices.ScaledStep | src/matrix.rs:214-217 | the bookkeeping of one column of `Multiply` |
| Matrices.ReplaceWithMultiple | src/matrix.rs:219-234 | an out-of-range row panics; otherwise the target gains `s` times a snapshot of the source, every other row is kept, and the checksum loses `s` times the source's digest at the target index |
| Matrices.ReplaceCell | src/matrix.rs:230-233 | one `get` and one `set` advance `ReplaceWithMultiple` by one column |
| Matrices.AddedStep | src/matrix.rs:230-233 | the bookkeeping of one column of `ReplaceWithMultiple` |
| Matrices.ScaledNone | src/matrix.rs:213-214 | `Multiply` starts from the matrix as given |
| Matrices.AddedNone | src/matrix.rs:229-230 | `ReplaceWithMultiple` starts from the matrix as given |
| Matrices.ScaledAll | src/matrix.rs:214-218 | after every column `Multiply` has done what it promises |
| Matrices.AddedAll | src/matrix.rs:230-234 | after every column `ReplaceWithMultiple` has done what it promises |
| Matrices.ReplaceSelfScales | src/matrix.rs:224-233 | because the source is read before any write, replacing a row with itself scales it by `1 + s` |
| Matrices.Operate | src/matrix.rs:160-240 | dispatches each operation to its behaviour above; help changes nothing; shape is kept whenever nothing panics |
| Matrices.Eq | src/matrix.rs:42-51 | different checksums compare unequal, equal checksums compare the cells: exactly structural equality |
| Matrices.EqOnConsistent | src/matrix.rs:42-51 | on consistent matrices `eq` is equality of the cells |
| Matrices.MultiplyMirrorsDigest | src/matrix.rs:208-218 | as written, `Multiply` moves the checksum by minus the change in the digest |
| Matrices.ReplaceMirrorsDigest | src/matrix.rs:219-234 | as written, `ReplaceWithMultiple` moves the checksum by minus the change in the digest |
| Corrected.InsertRow | src/matrix.rs:80-109 | `insert_row` with the width checked first: same acceptance and cells, a rejected row leaves the matrix untouched, and the checksum tracks the digest |
| Corrected.Set | src/matrix.rs:138-149 | `set` moving the checksum by the new term minus the old one; same acceptance, errors and shape as the original |
| Corrected.SetTracks | src/matrix.rs:141-146 | every corrected `set` moves the checksum by exactly the change in the digest |
| Corrected.SetWritesOneCell | src/matrix.rs:145 | the corrected `set` writes exactly the cell it names |
| Corrected.SetIsUpdate | src/matrix.rs:145 | an in-range corrected `set` is the update of one cell |
| Corrected.SwapRows | src/matrix.rs:162-207 | same checks and exchange as the original; each loop moves the terms of one exchanged row to the new cells, so the checksum tracks the digest |
| Corrected.Multiply | src/matrix.rs:208-218 | same panics and cells as the original; through the corrected `set`, the checksum tracks the digest |
| Corrected.MultiplyCell | src/matrix.rs:214-217 | one column of the corrected `Multiply` |
| Corrected.ScaledStep | src/matrix.rs:214-217 | the bookkeeping of one column of the corrected `Multiply` |
| Corrected.ReplaceWithMultiple | src/matrix.rs:219-234 | same panics and cells as the original; through the corrected `set`, the checksum tracks the digest |
| Corrected.ReplaceCell | src/matrix.rs:230-233 | one column of the corrected `ReplaceWithMultiple` |
| Corrected.AddedStep | src/matrix.rs:230-233 | the bookkeeping of one column of the corrected `ReplaceWithMultiple` |
| Corrected.Operate | src/matrix.rs:160-240 | every operation keeps shape and tracks the digest, so a consistent matrix stays consistent; cells, errors and panics as in the original |
| Corrected.SetCounterexample | src/matrix.rs:141-146 | writing 5 into cell (0, 1) of the consistent `[[1, 2]]`: as written the checksum becomes -1 and is no longer consistent; corrected it stays consistent |
| Corrected.MultiplyCounterexample | src/matrix.rs:208-218 | multiplying row 0 of the consistent `[[1, 2]]` by 2: as written the checksum becomes 0 while the digest becomes 4 |
| Corrected.SwapCounterexample | src/matrix.rs:180-206 | swapping the rows of the consistent `[[1], [2]]`: as written the checksum stays 2 while the digest becomes 1 |
| Corrected.InsertRowCounterexample | src/matrix.rs:86-106 | inserting `[3]` into the consistent `[[1, 2]]`: as written the row is rejected yet the checksum becomes 5; corrected, the matrix is left as it was |

## Left out

- `src/main.rs` is not part of this model. It is an earlier prototype with an `f64` matrix, a stdin loop and its own copy of the parser.
- `Display` and `Debug` for `Matrix` depend on how `Fraction` formats; they are not modelled.
- `Matrix::checksum` is the field accessor `m.checksum`; it has no member of its own.
- Error messages are modelled as tags, one per message template, carrying the values the template prints. The tag decides which template is used but not its wording; the text itself is not modelled.
- The messages of `check_xy` and `SwapRows` print `height() - 1` and `width - 1`. On an empty matrix, or on rows of length zero, that subtraction underflows: a debug build panics while formatting the message, a release build prints a wrapped value. The model returns the error in both cases, and its tags carry the height and width instead.
- The `println!` in `eq` is output only and is not modelled.
- `fraction::Fraction` is modelled as an exact rational. Its `u64` numerator and denominator can overflow, and it has NaN and infinity values; neither is modelled.
- Row and column indices become fractions through `as u64` in some places and `as f64` in others. These agree below 2^53, and the model treats both as exact.
- The `f64` scaler is parsed by `parseScalar` and rendered by `showScalar`, both parameters. The conversion of that `f64` into a `Fraction` is taken as exact.
- `to_lowercase` is modelled on ASCII letters only; other Unicode case mappings are not modelled.
- Capacity hints (`Vec::with_capacity`, `size_hint`) do not affect behaviour and are not modelled.
- The comment "cannot be zero" on the replace scaler is enforced nowhere, and the model does not enforce it either.
- Operations.ParseSwap: its contract says only that a success is a swap; the exact accept condition and result are stated by Operations.SwapLineParses.
- Operations.ParseMultiply: likewise; the exact condition is stated by Operations.MultiplyLineParses.
- Operations.ParseReplace: likewise; the exact condition is stated by Operations.ReplaceLineParses.
- Operations.ParseRow: its contract states only which tokens can be accepted; that a rendered row number, bare or behind `R`, is accepted with its own value is Operations.DecIsRowToken and Operations.PrefixedDecIsRowToken.
- Operations.TryFrom: its contract states the no-space case and where operations can come from; the result for each line shape is stated by the lemmas named in its row.
- Operations.Render: its contract states only where a space occurs; the injectivity and shape of a rendering are stated for swaps only, since the other renderings embed the `f64` text of `showScalar`.
- Text.ParseUsize: its contract states only which tokens can be accepted; that every rendered `usize` is accepted with its own value is Text.ParseDec.
- Text.Strip: its contract states only the length bound and the absence of the deleted character; membership is Text.StripMembers.
- Multiply and ReplaceWithMultiple propagate errors from `get` and `set` with `?`. Those errors cannot arise once the row index is in range on a rectangular grid, so the model has no such error path.

## Findings

| source | as written | input that shows it | evidently intended | confidence | as-written member | corrected member |
|---|---|---|---|---|---|---|
| src/matrix.rs:141-146 | `set` adds the old cell's term minus the new cell's term to the checksum, the opposite of the change in the digest | `[[1, 2]]` with checksum 2, then `set((0, 1), 5)`: the checksum becomes -1 while the digest is 5 | add the new term and subtract the old one | high; not executed | Matrices.Set, Matrices.SetMirrorsDigest, Corrected.SetCounterexample | Corrected.Set, Corrected.SetTracks |
| src/matrix.rs:208-234 | `Multiply` and `ReplaceWithMultiple` go through `set`, so they move the checksum by minus the change in the digest | `[[1, 2]]` with checksum 2, then `m 2 R0`: the checksum becomes 0 while the digest is 4 | the checksum follows the digest, as it does once `set` is corrected | high; not executed | Matrices.Multiply, Matrices.MultiplyMirrorsDigest, Matrices.ReplaceMirrorsDigest, Corrected.MultiplyCounterexample | Corrected.Multiply, Corrected.ReplaceWithMultiple |
| src/matrix.rs:180-206 | after `swap`, the first loop adds the terms of the old `lhs` row at index `rhs` and takes off those of the old `rhs` row at index `lhs`; the second loop does exactly the reverse, so the checksum never changes | `[[1], [2]]` with checksum 2, then `s 0 1`: the checksum stays 2 while the digest is 1 | each loop replaces the old terms of one row index with the terms of the row now at that index | high; not executed | Matrices.SwapRows, Corrected.SwapCounterexample | Corrected.SwapRows |
| src/matrix.rs:86-106 | `insert_row` adds the row's terms to the checksum before checking its width, and keeps them when it rejects the row | `[[1, 2]]` with checksum 2, then `insert_row([3])`: the call fails, yet the checksum becomes 5 while the digest is still 2 | check the width before touching the checksum | medium: `from_iter` discards the matrix on error, but `insert_row` is public; not executed | Matrices.InsertRow, Corrected.InsertRowCounterexample | Corrected.InsertRow |
