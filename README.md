# Image shrinking in `ui.js`, modelled in Dafny

This project models the image-shrinking code at the end of `ui.js`.

- `dataUrlSizeBytes` measures a data URL. It takes the second comma-separated field, counts its trailing `=` pads and returns `floor(len * 3 / 4) - pads`.
- `ensureUnderMaxBytes` re-encodes an image until its data URL fits a byte budget. It has a fast path and three phases:
  - a pre-scaled first encode at quality 0.9;
  - a walk down an 11-rung quality ladder at that size;
  - shrink rounds of 0.9x on both sides at quality 0.4, while a side is above 512 pixels.
- `resizeImage` clamps the longer side of an image to a bound and scales the other side in proportion.

The browser services are parameters (module `Canvas`):

- Loading an image is a `Decoder`: a data URL maps to a natural size, or to `None` when the element fires `error`.
- Drawing and `toDataURL('image/jpeg', q)` are an `Encoder`. It maps the source URL, a width, a height and an integer quality percentage to a data URL.
- A settled promise is a `Result`.

Modules:

- `Base64` (`base64.dfy`) is a reference definition of the base 64 encoding of section 4 of RFC 4648. The measure is proved exact against it.
- `DataUrl` (`data_url.dfy`) is `split(',')`, the payload, the padding count and `dataUrlSizeBytes`.
- `JsMath` (`js_math.dfy`) is `Math.max`, `Math.min` and `Math.round` on non-negative rationals.
- `Compressor` (`compressor.dfy`) is `ensureUnderMaxBytes`. Its two loops are methods with loop invariants, and a `decreases w + h` on the shrink loop.
  - `calls` is the sequence of encoder calls the run makes, as (size, quality) pairs.
  - `IsSearch` is an independent closed-form description of the whole run. Call 0 is at the pre-scaled size and 0.9. Calls 1 to 11 are the ladder rungs at that size. Call 11 + n is at the size n shrink rounds give, at 0.4. Every call but the last is over budget, and the run ends when the last call fits or no side is above 512.
  - The search is stated for any size measure. `EnsureUnderMaxBytes` runs it with `DataUrlSizeBytes`.
- `Resize` (`resize.dfy`) is `resizeImage`'s size arithmetic and its single encode.

Two behaviours of the code a reader might expect otherwise:

- The result of the slow path is the output of the last encode. It is not necessarily the smallest output obtained. Nothing compares it with the input either, so the result can measure more than the input (`OutputCanBeLarger`, `LargerResultExample`).
- The measured payload is the second comma-separated field. It is not everything after the first comma (`PayloadStopsAtSecondComma`).

## Model

| member | source | states |
|---|---|---|
| `DataUrl.Split` | ui.js:208 | `split(',')` gives at least one field, and no field contains the separator |
| `DataUrl.JoinSplit` | ui.js:208 | joining the fields of a split with the separator gives the string back |
| `DataUrl.SplitWithoutSeparator` | ui.js:208 | a string without the separator splits into itself alone |
| `DataUrl.SplitAtFirstSeparator` | ui.js:208 | the first field ends at the first separator; the rest is split on its own |
| `DataUrl.Payload` | ui.js:208 | the second comma field, or the empty string, never contains a comma |
| `DataUrl.PayloadIsSecondField` | ui.js:208 | the payload of `header,body` is `body` when neither holds a comma |
| `DataUrl.PayloadStopsAtSecondComma` | ui.js:208 | text after a second comma is not part of the measured payload |
| `DataUrl.PaddingCount` | ui.js:209 | the pad count is at most 2 and at most the payload length, and it is positive only if the payload ends in `=` |
| `DataUrl.PaddingOfLastTwo` | ui.js:209 | on two or more characters, the pad count is read from the last two characters alone |
| `DataUrl.PaddingOfPads` | ui.js:209 | a payload ending in the pads of an n-byte encoding has pad count (3 - n mod 3) mod 3 |
| `DataUrl.PayloadSizeOfShape` | ui.js:210 | a payload with the length and pads of an n-byte encoding measures exactly n |
| `DataUrl.DataUrlSizeBytes` | ui.js:207-211 | the measure is never below -1, whatever the string |
| `DataUrl.NegativeOnlyForBarePads` | ui.js:208-210 | the measure is negative exactly when the payload is `=` or `==` |
| `DataUrl.NoCommaMeasuresZero` | ui.js:208-210 | a URL without a comma has an empty payload and measures 0 |
| `DataUrl.PayloadSizeOfEncoding` | ui.js:209-210 | the RFC 4648 encoding of n bytes measures exactly n, with 0, 1 or 2 pads |
| `DataUrl.DataUrlSizeOfEncoding` | ui.js:207-211 | `header,<RFC 4648 encoding of n bytes>` measures exactly n |
| `Base64.Encode` | ui.js:210 | an encoding of n bytes is 4 * ceil(n / 3) characters long, the length the measure divides back |
| `Base64.EncodeHasNoComma` | ui.js:208 | an encoding holds no comma, so it is whole as the second comma field |
| `Base64.EncodeTrailingPads` | ui.js:209 | an encoding of n bytes ends in two pads when n mod 3 = 1, one when n mod 3 = 2, none when n mod 3 = 0 |
| `JsMath.Round` | ui.js:230-231 | `Math.round(a / d)`: the integer r with 2dr <= 2a + d < 2dr + 2d, the nearest one with halves rounded up |
| `Compressor.LadderShape` | ui.js:234 | the ladder has 11 rungs, starts at 90, ends at 40 and strictly descends |
| `Compressor.PreScaleSide` | ui.js:229-231 | a pre-scaled side is at least 1 and at most max(1, side); a ratio capped at 1 gives max(1, side) |
| `Compressor.PreScaled` | ui.js:227-231 | both pre-scaled sides lie between 1 and max(1, natural side) |
| `Compressor.ShrinkSide` | ui.js:241 | `Math.round(side * 0.9)` never grows a side, strictly shrinks a side above 5, keeps a positive side positive, and takes at least a tenth off the excess over 5 |
| `Compressor.ShrinkRoundDecreases` | ui.js:240-241 | a round from a size with a side above 512 grows neither side, strictly shrinks each side above 512 and strictly lowers w + h |
| `Compressor.Shrunk` | ui.js:241 | n rounds never grow a side and keep positive sides positive |
| `Compressor.RoundsWhileAbove` | ui.js:240 | if the first n rounds all start above 512 on some side, the loop's round count is at least n |
| `Compressor.ShrinkRoundsLogBound` | ui.js:240-243 | r shrink rounds need 507 * 10^(r-1) < (larger side - 5) * 9^(r-1), so there are logarithmically many |
| `Compressor.SearchStarts` | ui.js:232 | the first encode, at the pre-scaled size and 0.9, begins a run |
| `Compressor.LadderStep` | ui.js:236-237 | with the output over budget and a rung left, an encode at the next rung and the same size extends the run |
| `Compressor.ShrinkStep` | ui.js:240-242 | with the ladder used up, the output over budget and a side above 512, an encode at the next shrunk size and 0.4 extends the run |
| `Compressor.SearchEnds` | ui.js:240-245 | leaving the shrink loop, because the output fits or because no side is above 512 after the ladder, ends the run |
| `Compressor.RoundWasOpen` | ui.js:240 | every shrink round in a run follows an over-budget output at a size with a side above 512 |
| `Compressor.NoCallAfterEnd` | ui.js:236-245 | a run that agrees with a finished run on all its calls makes no further call |
| `Compressor.SearchIsDeterministic` | ui.js:221-246 | two runs from the same size, image, encoder and budget make exactly the same calls |
| `Compressor.SearchCallAt` | ui.js:232-242 | call k is the first encode at 0.9, the k-th rung at the pre-scaled size, or the (k - 11)-th shrink round at 0.4 |
| `Compressor.LadderDescends` | ui.js:234-238 | the ladder encodes keep the pre-scaled size, the first of them repeats 0.9, and their qualities strictly descend |
| `Compressor.SearchExit` | ui.js:236-245 | the last output fits the budget, or it was encoded with both sides at most 512; an over-budget last output comes after the whole ladder, at quality 0.4 |
| `Compressor.SearchBounds` | ui.js:227-243 | a run makes at most 12 + ShrinkRounds(start) calls; each is between 1 pixel and the start size on both sides, with quality between 40 and 90; qualities never rise |
| `Compressor.OutputCanBeLarger` | ui.js:236-245 | the result is the last encode's output as is: with an encoder whose outputs measure 6 bytes, every run from a 3-byte input under a 2-byte budget ends in a 6-byte output |
| `Compressor.LargerResultExample` | ui.js:221-246 | `ensureUnderMaxBytes` on a 3-byte input with budget 2, a 1 by 1 image and that encoder resolves to a 6-byte data URL |
| `Compressor.WalkLadder` | ui.js:234-238 | the quality loop makes at most 11 encodes, extends the run, and on exit the output fits unless all 11 rungs were used |
| `Compressor.ShrinkToFit` | ui.js:240-245 | the shrink loop turns the ladder's calls into a finished run and returns the last output |
| `Compressor.Compress` | ui.js:221-246 | for any measure: fast path unchanged with no encode; a failed load rejects with no encode; otherwise the calls are the run from the pre-scaled size, the result is the last output, and there are at most 12 + ShrinkRounds calls |
| `Compressor.EnsureUnderMaxBytes` | ui.js:221-246 | the same, measured with `dataUrlSizeBytes` |
| `Resize.ResizedSize` | ui.js:252-254 | in its three cases: width clamped to maxWidth with the height nearest to h * maxWidth / w; or height clamped with the width nearest to w * maxHeight / h; or the size unchanged; no side ever grows |
| `Resize.FitsSquareBox` | ui.js:253-254 | with a square bound m the result fits the m by m box, and an image that did not fit gets a side of exactly m |
| `Resize.ResizeIdempotentSquare` | ui.js:253-254 | with a square bound, resizing a resized image changes nothing |
| `Resize.UnequalBoundsCanExceedHeight` | ui.js:253 | a 2000x1900 image with bounds 1024 and 100 becomes 1024x973: only the longer side's bound applies |
| `Resize.ThinImageCollapses` | ui.js:248-253 | with the default bounds a 10000x1 image becomes 1024x0 |
| `Resize.ResizeImage` | ui.js:248-259 | a failed load rejects with "Failed to load image for resizing."; a loaded image is encoded once, at the resized size and quality 0.9 |

## Left out

- The DOM and popup code of `ui.js` (lines 1-204), and `main.js`, `api.js` and `settings.js`. These are event wiring, network and storage code with no algorithm of their own.
- Image decoding and canvas encoding are browser services. They are the `Decoder` and `Encoder` parameters, and the model assumes nothing about them. In particular it does not assume that a lower quality gives a smaller output.
- Promises and `await` are reduced to their settled `Result`. An image whose `load` or `error` event never fires would leave the promise pending; that case is not modelled.
- EnsureUnderMaxBytes: the pre-scale ratio `Math.min(1, Math.sqrt(maxBytes / bytes))` is the rational parameter ratioNum / ratioDen. The model does not compute the square root, so the first size is not tied to the budget. When `maxBytes` is negative the square root is `NaN` in the browser; a non-negative rational cannot represent that.
- Compress: the same parameter stands for the ratio.
- Floating point: `Math.round(w * 0.9)` and `Math.round(h * maxWidth / w)` use exact rational rounding. A product that IEEE arithmetic lands just beside a half may round the other way in a browser.
- Qualities are integer percentages (0.9 is 90), as they reach the encoder.
- String lengths count characters. JavaScript counts UTF-16 code units; the two agree on the ASCII text of data URLs.
- Resize.ResizedSize: the bounds are natural numbers. Negative or fractional `maxWidth` and `maxHeight` are not modelled.
- Default arguments are not modelled separately: the only caller, main.js:60, passes the 10 MiB budget explicitly, and the default bounds of 1024 of `resizeImage` are the constant `DefaultMaxSide`.
