# rational-trees path identifiers in Dafny

This project models the `rational-trees` library. The library gives every node of a tree a
*path identifier*. A path is a sequence of child indexes `[x1, ..., xn]`. Its identifier is the
2x2 matrix `PathIdentifier(a, b, c, d)`: the product of the identity matrix (the root) with one
elementary matrix `| xi+2 1 ; 1 0 |` per element.

- The first column `a / c` is the continued fraction `[x1+2; x2+2, ..., xn+2]`.
- The offset `FUDGE = 2` keeps every term at least 2. Without it, `[3, 5, 1]` and `[3, 6]` would
  give the same fraction.
- Decoding peels the leftmost elementary factor off again by Euclidean division, one term per
  step, until the root is reached.
- Identifiers are also written as text: the path's elements in decimal joined with dots, and the
  empty string for the root.

The model has four modules:

- `PathIds` (`path_ids.dfy`): the pure part.
  - The identifier datatype, the root, `is_root`, the elementary matrix and the matrix product.
  - The encoder as a left fold.
  - The shape every encoding has.
  - One decoding step (`Quotient`, `Peel`) and the decoder `Decode`, defined on encodings.
  - The round trip and injectivity.
- `PathState` (`path_state.dfy`): the code that updates state in place, proved against
  `PathIds`.
  - `MulAssign` on a mutable identifier.
  - The collecting loop of `from_iter` and `From<Vec<u64>>`.
  - The path iterator's `next`, which rewrites its identifier's four fields.
  - The loop that drains the iterator into a path.
- `PathText` (`path_text.dfy`): the `FromStr` parser.
  - Splitting on '.', as `str::split` does.
  - A model of `u64::from_str`: empty input, a lone sign, one optional leading '+', digits
    only, and the 64-bit range check made digit by digit.
  - The first failing component decides the error.
- `PathExamples` (`path_examples.dfy`): the test vectors of the source's unit tests, for the
  encoder, the decoder and the parser. It adds two parse errors.

`Wrappers` (`wrappers.dfy`) holds `Option` and `Result`.

The code uses plain `*` and `+` on `u64`; the model uses unbounded naturals (see "Left out").

## Model

| member | source | states |
|---|---|---|
| PathIds.Root | src/lib.rs:29-31 | The root identifier: the identity matrix `(1, 0, 0, 1)`, as `root()` builds it. |
| PathIds.IsRoot | src/lib.rs:33-35 | `is_root`: the second entry is zero. |
| PathIds.FromPathElement | src/lib.rs:37-39 | The elementary matrix `(term, 1, 1, 0)` of one continued-fraction term, as `from_path_element` builds it. |
| PathIds.Mul | src/lib.rs:45-54 | The 2x2 product, entry for entry as `mul`. |
| PathIds.Encode | src/lib.rs:70-81 | The encoder: the root multiplied on the right by the matrix of `piece + FUDGE` for each piece in order, the fold `from_iter` performs. Each step is written out entry by entry; `EncodeAppend` shows it is `Mul`. |
| PathIds.Quotient | src/lib.rs:127 | The next term, `a / c` (integer division), as `next` computes `result`. |
| PathIds.Peel | src/lib.rs:127-135 | The new state after one `next` step: `(c, d, a - c*q, b - d*q)` for the quotient `q`, defined where neither subtraction goes below zero. |
| PathIds.RootIsIdentity | src/lib.rs:29-54 | The root `(1, 0, 0, 1)` satisfies `is_root`, and multiplying it with any identifier on either side leaves that identifier unchanged. |
| PathIds.MulAssociative | src/lib.rs:45-54 | The matrix product is associative, so the fold can be regrouped. |
| PathIds.MulElement | src/lib.rs:37-54 | Right-multiplying by an element's matrix moves the first column into the second column. |
| PathIds.ElementMul | src/lib.rs:37-54 | Left-multiplying by an element's matrix moves the first row into the second row. |
| PathIds.EncodeAppend | src/lib.rs:70-81 | Encoding is a left fold: encoding `v + [x]` is the encoding of `v` times the matrix of `x + FUDGE`. This shifts the old first column into the second. |
| PathIds.EncodeShape | src/lib.rs:70-81 | Every encoding has `a >= 1` and `c < a`. `b == 0` holds exactly for the empty path, whose encoding is the root. Below the root, `c >= 1` and `d < b`. |
| PathIds.EncodeCons | src/lib.rs:70-81 | The first element's matrix is the leftmost factor of the encoding. |
| PathIds.PeelArithmetic | src/lib.rs:127-135 | On `(k*a + c, k*b + d, a, b)` with `c < a` (any `k`, including 0), the quotient is `k` and both subtractions leave `c` and `d`. |
| PathIds.PeelEncode | src/lib.rs:122-137 | One step on the encoding of `[x] + w` has quotient `x + FUDGE`. Neither subtraction goes below zero. It leaves the encoding of `w`, whose first entry is strictly smaller. |
| PathIds.PeelStep | src/lib.rs:122-137 | On any encoding, `is_root` means the root. Otherwise the quotient is at least FUDGE and the step stays within the naturals. It leaves an encoding with a smaller first entry, and multiplying the quotient's matrix back restores the input. |
| PathIds.Decode | src/lib.rs:119-143 | The path produced by peeling to the root encodes back to the identifier it came from. It terminates on the first entry. |
| PathIds.DecodeStep | src/lib.rs:122-143 | Decoding the encoding of `[x] + w` yields `x` followed by the decoding of the encoding of `w`. |
| PathIds.DecodeEncode | src/lib.rs:141-143 | Round trip: decoding the encoding of any path, including the empty one, gives that path back. |
| PathIds.EncodeInjective | src/lib.rs:16-23 | Distinct paths have distinct identifiers. |
| PathIds.IsRootIffEmpty | src/lib.rs:33-35 | On encodings, `is_root` holds exactly when the decoded path is empty, and exactly for the root. |
| PathIds.UnshiftedTermsCollide | src/lib.rs:16-23 | Without the offset, the products for `[3, 5, 1]` and `[3, 6]` share the first column 19/6, which is the ambiguity the offset removes. |
| PathState.MutablePathIdentifier.constructor | src/lib.rs:75 | A mutable identifier holds the given value. |
| PathState.MutablePathIdentifier.MulAssign | src/lib.rs:57-67 | After `*=`, the identifier is the product of its old value and `other`. All four old entries are used. |
| PathState.FromIter | src/lib.rs:70-81 | The collecting loop, which starts at the root and does `*=` per element, returns the encoding of the elements. |
| PathState.FromVec | src/lib.rs:95-99 | Converting a vector gives its encoding, which is the root exactly for the empty vector. |
| PathState.PathIterator.constructor | src/lib.rs:111-117 | The iterator starts on a fresh copy of the identifier, with the identifier's whole path still to come. |
| PathState.PathIterator.Next | src/lib.rs:122-137 | At the root: `None`, with nothing changed. Otherwise: `Some` of the next element plus FUDGE. No subtraction underflows, the copy becomes the encoding of the rest of the path, and its first entry strictly decreases. |
| PathState.Path | src/lib.rs:140-143 | Draining the iterator and subtracting FUDGE from each term gives the decoded path. |
| PathText.Split | src/lib.rs:90 | Splitting on '.' gives at least one piece, and no piece contains '.'. Joining the pieces with '.' restores the text. |
| PathText.SplitJoin | src/lib.rs:90 | Splitting undoes joining for a non-empty list of pieces without '.'. |
| PathText.ScanDigits | src/lib.rs:90 | The digit loop of the integer parser succeeds exactly on all-digit text whose value fits in 64 bits, and then returns that value. |
| PathText.ParseU64 | src/lib.rs:90 | `Empty` exactly for the empty string. Success exactly when the text after an optional '+' is non-empty digits within the 64-bit range, returning their value. |
| PathText.ParseComponents | src/lib.rs:90 | Succeeds exactly when every component parses, returning their values in order. Otherwise it fails with the error of the first component that fails. |
| PathText.FromStr | src/lib.rs:86-92 | The empty string is the root. Otherwise parsing succeeds exactly when every dot-separated component parses, and the identifier's decoded path is then the list of component values. Otherwise the error is the first failing component's. |
| PathText.ParseDecimal | src/lib.rs:90 | The decimal text of any 64-bit value parses back to it. |
| PathText.FromStrJoin | src/lib.rs:86-92 | Numerals within 64 bits joined with dots parse to the encoding of their values. |
| PathText.FromStrFormat | src/lib.rs:86-99 | Every path of 64-bit elements parses back from its dotted decimal text to the same identifier `From<Vec<u64>>` gives. |
| PathExamples.EncodeExamples | src/lib.rs:164-178 | The vectors `[]` to `[3, 12, 5, 1, 21]` encode to `(1,0,0,1)`, `(5,1,1,0)`, `(71,5,14,1)`, `(502,71,99,14)`, `(1577,502,311,99)` and `(36773,1577,7252,311)`. |
| PathExamples.DecodeExampleRoot | src/lib.rs:186 | The root decodes to the empty path. |
| PathExamples.DecodeExample1 | src/lib.rs:187 | `(5,1,1,0)` decodes to `[3]`. |
| PathExamples.DecodeExample2 | src/lib.rs:188 | `(71,5,14,1)` decodes to `[3, 12]`. |
| PathExamples.DecodeExample3 | src/lib.rs:189 | `(502,71,99,14)` decodes to `[3, 12, 5]`. |
| PathExamples.DecodeExample4 | src/lib.rs:190 | `(1577,502,311,99)` decodes to `[3, 12, 5, 1]`. |
| PathExamples.DecodeExample5 | src/lib.rs:191 | `(36773,1577,7252,311)` decodes to `[3, 12, 5, 1, 21]`. |
| PathExamples.ParseExampleRoot | src/lib.rs:156 | `""` parses to the root. |
| PathExamples.ParseExample1 | src/lib.rs:157 | `"3"` parses to `(5,1,1,0)`. |
| PathExamples.ParseExample2 | src/lib.rs:158 | `"3.12"` parses to `(71,5,14,1)`. |
| PathExamples.ParseExample3 | src/lib.rs:159 | `"3.12.5"` parses to `(502,71,99,14)`, the same identifier as `vec![3, 12, 5]`. |
| PathExamples.ParseExample4 | src/lib.rs:160 | `"3.12.5.1"` parses to `(1577,502,311,99)`. |
| PathExamples.ParseExample5 | src/lib.rs:161 | `"3.12.5.1.21"` parses to `(36773,1577,7252,311)`. |
| PathExamples.ParseErrorExamples | src/lib.rs:86-92 | An empty component (`"3..5"`) or a non-numeric one (`"3.x"`) fails the whole parse with that component's error. |

## Left out

- Fixed-width `u64` arithmetic. The products and sums in `mul`, `mul_assign`, `from_iter` and `next` panic on overflow in debug builds and wrap in release builds. The model uses unbounded naturals, so every encoding, however long or large, is modelled exactly. The parser's own 64-bit range check on each component is modelled.
- PathText.ParseU64: models the standard library's `u64::from_str` only as far as its results go: the error kinds `Empty`, `InvalidDigit` and `PosOverflow`, the optional '+', and that the leftmost problem decides the error. It does not model `ParseIntError` as an opaque type or its message text. The library code itself is not part of this model.
- Laziness of the Rust iterators, and the `map`/`collect` plumbing. `path()` is modelled as a method that drains the iterator into a sequence. The `Result` collection in `from_str` is modelled as parsing all components and then encoding them with the encoder. `PathState.FromIter` is proved to compute the same encoder.
- Decoding an identifier that no path encodes. This is outside the source's contract and can underflow there, so "is an encoding" is a precondition of the decoder, the iterator and `Path`.
- The derived `Clone`, `Debug` and `Eq`, and the `PartialEq` against tuples. The datatype's own equality stands in for them, and the iterator's copy is a fresh object.
- The encoder `Encode` writes the product with each element's matrix entry by entry. `PathIds.EncodeAppend` proves it equals `Mul`.
