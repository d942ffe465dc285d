# Scramble text and dithered WebGL effects, modelled in Dafny

The repository is a small front-end toolkit with two halves.

- **ScrambleText** (`src/useScrambleText.js`) animates a DOM element's
  text. Every character starts as a random glyph and settles into the real
  text from left to right. The animation is driven by a `control` array,
  one cell per position. A cell holds the character that is already
  revealed, `null` for a not-yet-reached position, or a countdown number
  of scramble frames still to show. A `scrambleIndex` cursor moves forward
  by `step` positions every `tick` frames. An optional `overdrive` cursor
  runs ahead and paints a filler character.
- **Effects** are three.js fragment shaders with a little JavaScript state
  each:
  - ordered (Bayer) dithering of an image or a shape, with 2x2, 4x4 and
    8x8 threshold tables;
  - a mouse trail kept in a 20-slot ring buffer;
  - click ripples in a 3-slot ring (and a 10-slot ring in the burst
    variant);
  - hover effects whose intensity eases toward the pointer state;
  - ASCII-glyph variants that pick a character from a luminance ramp;
  - a 3D coin composited over a dithered background.

The Dafny model works on immutable values.

- JavaScript values in the control array are a `Cell` datatype:
  - string, number, `null` or `undefined`;
  - strings are sequences of UTF-16 code units.
- Arrays follow JavaScript's sparse semantics:
  - reading past the end gives `undefined`;
  - writing past the end extends the array with holes.
- `Math.random` is an oracle `nat -> real` with an explicit draw cursor.
  `Fair` says every draw lies in [0, 1).
- GLSL floats are `real`. `floor`, `fract`, `mod`, `step`, `smoothstep`,
  `clamp` and `mix` are defined exactly.
- Noise, hashes, `distance`, `normalize` and exponential pulses are
  function parameters.

Modules:

| module | file | what it holds |
|---|---|---|
| `JsValues` | js_values.dfy | code units, control cells, template conversion, sparse arrays |
| `RandomOracle` | random_oracle.dfy | `getRandomInt` over a random oracle |
| `ScrambleText` | scramble_text.dfy | the scrambler's state machine |
| `ScrambleProofs` | scramble_proofs.dfy | invariants of that state machine across calls |
| `SlotRing` | slot_ring.dfy | the round-robin slot buffer shared by the trail and ripple effects |
| `TrailEffects` | trail_effects.dfy | the 20-point trail and the shader's trail sum |
| `RippleEffects` | ripple_effects.dfy | 3-slot click ripples and the 10-slot click burst |
| `ThresholdMatrix` | threshold_matrix.dfy | threshold matrices: permutations, scan lookup, lit-cell counts |
| `Bayer` | bayer.dfy | the Bayer tables and every shader's lookup into them |
| `Dithering` | dithering.dfy | type dispatch, `res`, compositing, contain/cover box sizes |
| `Glsl` | glsl.dfy | the GLSL built-ins used, over `real` |
| `Hover` | hover.dfy | hover smoothing, aura, nested pixel grids, the pixel-scramble fragment |
| `AsciiGlyphs` | ascii_glyphs.dfy | character-index selection, glyph atlas, ASCII fragments |
| `Coin3D` | coin3d.dfy | coin size, coin-space mapping and the `inCoin` mask |

## Model

| member | source | states |
|---|---|---|
| JsValues.FromCharCode | src/useScrambleText.js:58 | `String.fromCharCode` keeps a code in 0..65535 and otherwise reduces it modulo 2^16 |
| JsValues.Show | src/useScrambleText.js:62 | the template conversion used by the ignore test: a string is itself, `null` and `undefined` are their names, a number starts with `-` exactly when it is negative |
| JsValues.Put | src/useScrambleText.js:85 | an array write sets exactly that index, leaves every other index as it was, and extends the length to index + 1 when writing past the end |
| JsValues.CharAt | src/useScrambleText.js:86 | `text[i]` is the one-unit string in range and `undefined` outside it |
| JsValues.Split | src/useScrambleText.js:241 | `text.split('')` has one cell per code unit, each equal to `text[i]` |
| JsValues.Holes | src/useScrambleText.js:206 | `new Array(n)` has length n and reads `undefined` everywhere |
| JsValues.Ceil | src/useScrambleText.js:88 | `Math.ceil` gives the least integer not below its argument |
| RandomOracle.RandomInt | src/useScrambleText.js:47-49 | `getRandomInt` consumes exactly one random draw |
| RandomOracle.RandomIntRange | src/useScrambleText.js:47-49 | with a draw in [0,1) the result lies in [min, max]; with reversed bounds it lies in (max, min] |
| ScrambleText.RandomChar | src/useScrambleText.js:51-59 | `getRandomChar` consumes exactly one random draw |
| ScrambleText.RandomCharRange | src/useScrambleText.js:51-59 | a two-element range yields a code between its bounds; any other non-empty range yields the code of one of its elements |
| ScrambleText.SetIfNotIgnored | src/useScrambleText.js:61-63 | a value whose string form is on the `ignore` list is kept; any other value gives way to the replacement |
| ScrambleProofs.DefaultIgnoresOnlySpace | src/useScrambleText.js:61-63 | with the default ignore list a space is kept, while every other single character, every number and `null` are replaced |
| ScrambleText.StepLoop | src/useScrambleText.js:79-94 | `stepForward` moves the cursor to min(text length, cursor + step) and writes only the positions it passed; each of those holds the ignored text character or a countdown number; all other state is unchanged |
| ScrambleText.StepForward | src/useScrambleText.js:79-94 | `stepForward` advances the cursor by `step` (capped at the text length), writes only the passed positions, each with the ignored text character or a countdown, and never makes the control longer than both the text and the old control |
| ScrambleText.Splice | src/useScrambleText.js:97-100 | `splice(start, count)` keeps the prefix before `start`, drops `count` cells (none if negative) and shifts the rest down |
| ScrambleText.Placeholder | src/useScrambleText.js:103-105 | the pushed placeholder is the text character when that character is ignored, and `null` exactly when it is not |
| ScrambleText.Pad | src/useScrambleText.js:101-107 | the push loop keeps the old cells, grows toward the text length by at most `step`, and each pushed cell is the placeholder for the text position it reads |
| ScrambleText.ResizeWith | src/useScrambleText.js:96-108 | a control longer than the text loses one cell plus `step` cells after the text length (never below it), keeping the text-length prefix; a shorter one grows by at most `step`, never past the text |
| ScrambleText.ResizeControlAsWritten | src/useScrambleText.js:96-108 | `resizeControl` as the program runs it: the same length bounds and kept prefix as the corrected one, but each new cell at position j is `null` or the ignored text character of position j + 1 |
| ScrambleText.ResizeControl | src/useScrambleText.js:96-108 | corrected `resizeControl` (finding 1): it grows by at most `step`, never beyond the text, shrinks a too-long array without going below the text length, keeps every cell inside both, and each new cell is `null` or the ignored text character of its own position |
| ScrambleText.SeedLoop | src/useScrambleText.js:68-76 | the seed loop keeps the length, changes only string or `null` cells, always to numbers, and under a fair oracle never touches positions before the cursor |
| ScrambleText.SeedForward | src/useScrambleText.js:65-77 | `seedForward` does nothing and draws nothing once the cursor reached the end of the text |
| ScrambleText.OverdriveLoop | src/useScrambleText.js:113-122 | the overdrive loop advances its cursor by up to `step`, bounded by the longer of control and text, and writes only the passed positions, each with the ignored character or the overdrive filler |
| ScrambleText.OnOverdrive | src/useScrambleText.js:110-123 | without an overdrive setting the state is unchanged |
| ScrambleText.Redraw | src/useScrambleText.js:158-181 | a draw changes a cell only by counting a positive countdown at or before the cursor down by one, or by turning a zero countdown inside the text into its text character, and always does both |
| ScrambleText.Emit | src/useScrambleText.js:158-181 | a non-countdown cell draws its own string at or past the cursor, its text character when revealed or when a zero countdown inside the text, and nothing for `null` |
| ScrambleText.DrawFrom | src/useScrambleText.js:155-182 | the draw loop consumes exactly one random draw per positive countdown and draws at least that many characters |
| ScrambleText.Draw | src/useScrambleText.js:150-199 | without an element nothing happens; otherwise positive countdowns at or before the cursor decrease by one, a zero countdown inside the text becomes the text character, every other cell is kept, the array is cut to the text length when the drawn string equals the text, the animation stops exactly then, and `stepCount` increases by one |
| ScrambleText.Tick | src/useScrambleText.js:125-129 | `onTick` changes only the control and the cursor, advances the cursor by `step` capped at the text length, and never makes the control longer than both the text and the old control |
| ScrambleText.Frame | src/useScrambleText.js:131-148 | with the resize lookahead the program uses (or the corrected one), a zero speed stops the animation with no change; within the frame interval only the overdrive runs; past it the elapsed time is set to the frame time; the animation keeps running while the drawn text differs from the target |
| ScrambleText.Reset | src/useScrambleText.js:201-208 | all cursors and the step count become 0; the control array is kept under `overflow` and is otherwise a hole array of the text's length |
| ScrambleText.Play | src/useScrambleText.js:210-217 | play restarts from cursor 0 and marks the animation running |
| ScrambleText.UpdateText | src/useScrambleText.js:219-222 | only the text option changes, both cursors restart at 0, and the running state is kept |
| ScrambleText.Destroy | src/useScrambleText.js:224-226 | the animation stops and the control array is kept |
| ScrambleText.MotionOptions | src/useScrambleText.js:230-238 | reduced motion sets `step` to the text length, `chance` to 0 and turns overdrive off; otherwise the options are untouched |
| ScrambleText.Init | src/useScrambleText.js:228-249 | with `playOnMount` the scrambler runs from cursor 0; without it, it is idle with the cursor at the end of the text |
| ScrambleProofs.DrawKeepsRevealed | src/useScrambleText.js:155-182 | a drawn frame never un-reveals a position before the cursor and moves neither cursor |
| ScrambleProofs.TickKeepsRevealed | src/useScrambleText.js:125-129 | a tick (step, resize, seed), with the program's resize or the corrected one, keeps every revealed position revealed and moves the cursor by `step`, capped at the text length |
| ScrambleProofs.OverdriveKeepsRevealed | src/useScrambleText.js:110-123 | the overdrive pass keeps revealed positions and, when on, leaves its cursor at or beyond min(text length, reveal cursor + `step`) |
| ScrambleProofs.FrameKeepsRevealed | src/useScrambleText.js:131-148 | a whole animation frame, with the program's resize or the corrected one, preserves the cursor ordering and every revealed position |
| ScrambleProofs.CountdownReveals | src/useScrambleText.js:159-177 | a position reached by the cursor with countdown m shows its text character after m + 1 draws |
| ScrambleProofs.DrawFromRevealed | src/useScrambleText.js:155-182 | drawing cells that all hold their text characters produces exactly that slice of the text |
| ScrambleProofs.DrawShowsRevealedText | src/useScrambleText.js:190-196 | a fully revealed control draws the target text, keeps the array and ends the animation |
| ScrambleProofs.InitWithoutPlayShowsText | src/useScrambleText.js:240-245 | without `playOnMount` the element immediately shows the text, the control is its split, and nothing runs |
| ScrambleProofs.InitCursorsOk | src/useScrambleText.js:228-249 | after `init` the reveal cursor is within the text and behind an active overdrive cursor |
| ScrambleProofs.FirstStep | src/useScrambleText.js:79-148 | the first frame of `"ab c"` with the default options is past the frame interval, ticks, and its step leaves a countdown of 1 or 2 at position 0 with the cursor at 1 |
| ScrambleProofs.AsWrittenFrameMisplacesIgnored | src/useScrambleText.js:96-148 | as the program runs it, that first frame pushes the space of position 2 into position 1 and draws a space there, where the text holds `b` |
| ScrambleProofs.CountdownsDrawGlyphs | src/useScrambleText.js:155-182 | cells that are positive countdowns or `null` draw only characters from a two-element range |
| ScrambleProofs.IntendedFirstTick | src/useScrambleText.js:125-129 | with the corrected resize, the first tick of `"ab c"` leaves a countdown at position 0 and `null` or a countdown of 1 at position 1 |
| ScrambleProofs.IntendedFrameDrawsOnlyGlyphs | src/useScrambleText.js:131-148 | with the corrected resize, that first frame draws only characters from the scramble range, never the space |
| SlotRing.Fill | src/HoverTrailRippleEffect.js:163-173 | a fresh ring holds the sentinel in every slot with the head at 0 |
| SlotRing.Push | src/HoverTrailRippleEffect.js:307-319 | a push writes exactly the head slot and advances the head by one, wrapping to 0 |
| SlotRing.Alive | src/HoverTrailRippleEffect.js:72-73 | the `step * step` liveness test holds exactly when 0 <= elapsed <= duration |
| SlotRing.PushAllHead | src/HoverTrailRippleEffect.js:319 | after k pushes the head is (head + k) mod n |
| SlotRing.LastWritesSurvive | src/HoverTrailRippleEffect.js:307-319 | each of the last n pushed values sits at its own slot, head + j mod n |
| SlotRing.UntouchedSlots | src/HoverTrailRippleEffect.js:307-319 | fewer than n pushes leave the slots beyond them as they were |
| SlotRing.FreshBufferInOrder | src/HoverTrailRippleEffect.js:307-325 | from a fresh ring, up to n pushes land at indices 0.. in order, and the rest stay sentinels |
| TrailEffects.InitialTrail | src/HoverTrailRippleEffect.js:163-173 | the trail starts with twenty sentinel points at time -10, head 0, count 0 |
| TrailEffects.AddSlot | src/HoverTrailRippleEffect.js:307-326 | adding a point writes the head uniform only, advances the head modulo 20, and counts up to 20 and no further |
| TrailEffects.AddTrailPoint | src/HoverTrailRippleEffect.js:307-316 | the head uniform receives the position and `now * 0.001` seconds |
| TrailEffects.AddSlotsFromStart | src/HoverTrailRippleEffect.js:321-325 | from the initial trail the count is the number of points added, capped at 20, and the buffer is the ring after those pushes |
| TrailEffects.ShaderReadsAddedPoints | src/HoverTrailRippleEffect.js:103-108 | after up to 20 points the shader's count equals their number, its first slots hold them in order and the rest are sentinels |
| TrailEffects.MovedIsDistance | src/HoverTrailRippleEffect.js:283-291 | the squared-distance test used here holds exactly when the Euclidean distance exceeds 0.01 |
| TrailEffects.MouseMove | src/HoverTrailRippleEffect.js:276-292 | a mouse move records the previous position, and adds a trail point only when the pointer moved more than 0.01 |
| TrailEffects.CooldownMouseMove | src/HoverTrailAsciiWhiteEffect.js:320-340 | in the ASCII trail a point is also added only when more than 30 ms passed since the last one, and then the last-point time is updated |
| TrailEffects.CooldownSpacing | src/HoverTrailAsciiWhiteEffect.js:327-339 | two consecutive recorded trail points are more than 30 ms apart |
| TrailEffects.CalcTrail | src/HoverTrailRippleEffect.js:63-94 | a trail point contributes in [0,1], nothing outside its 1.5 s life and nothing at its end |
| TrailEffects.TrailSum | src/HoverTrailRippleEffect.js:103-108 | the shader's trail sum is never negative |
| TrailEffects.TotalTrail | src/HoverTrailRippleEffect.js:103-111 | the clamped total trail lies in [0,1] |
| TrailEffects.DeadPointsAddNothing | src/HoverTrailRippleEffect.js:103-108 | when every counted point has expired, the sum is 0 |
| TrailEffects.CountBoundsTheRead | src/HoverTrailRippleEffect.js:104-105 | the sum depends only on the first `uTrailCount` slots |
| TrailEffects.TotalCoversEachPoint | src/HoverTrailRippleEffect.js:103-111 | the sum is at least the contribution of every counted point |
| TrailEffects.InitialTrailIsDark | src/HoverTrailRippleEffect.js:226 | with the initial uniforms the shader shows no trail at all |
| TrailEffects.CalcTrailWithDisplacement | src/HoverTrailAsciiWhiteEffect.js:35-70 | the displacement variant is zero for an expired point and its intensity component agrees with the plain trail |
| TrailEffects.DisplacementAgreesWithTrail | src/HoverTrailAsciiWhiteEffect.js:78-88 | the displacement sum's intensity equals the plain trail sum, and the whole vector is zero when no counted point is alive |
| RippleEffects.InitialRipples | src/RippleClickEffect.js:186-192 | three sentinel ripples at time -10 with the head at 0 |
| RippleEffects.ClickSlot | src/RippleClickEffect.js:285-295 | a click writes only the head ripple and advances the head modulo 3 |
| RippleEffects.Click | src/RippleClickEffect.js:279-296 | the head ripple receives the click position and `now * 0.001` seconds |
| RippleEffects.ClicksArePushes | src/RippleClickEffect.js:285-295 | a click sequence is the ring after the same pushes |
| RippleEffects.ThreeClicksThreeSlots | src/RippleClickEffect.js:279-295 | three clicks occupy three distinct slots, starting at the head, in order |
| RippleEffects.FourthClickReplacesOldest | src/RippleClickEffect.js:279-295 | a fourth click overwrites the first click's slot and keeps the other two |
| RippleEffects.CalcRippleWithDisplacement | src/RippleClickEffect.js:66-103 | a ripple is zero outside its 1.6 s life, its intensity lies in [0,1], and it is 0 at its end |
| RippleEffects.TotalRipple | src/RippleClickEffect.js:117 | the combined ripple is the largest of the three intensities |
| RippleEffects.RippleFrame | src/RippleClickEffect.js:111-123 | the combined intensity lies in [0,1] |
| RippleEffects.StillWithoutLiveRipple | src/RippleClickEffect.js:111-123 | with no live ripple there is neither intensity nor displacement |
| RippleEffects.InitialRipplesAreStill | src/RippleClickEffect.js:223-233 | the initial uniforms produce no ripple once the clock is past the sentinel's life |
| RippleEffects.InsideEdgesAsWritten | src/RippleAsciiEffect.js:60-68 | the inner-disc edges as written differ once any time has passed |
| RippleEffects.AsWrittenInsideEdgesMeet | src/RippleAsciiEffect.js:48-68 | at the click instant the ripple is alive and both inner-disc edges are 0 |
| RippleEffects.CalcRipple | src/RippleAsciiEffect.js:38-74 | an ASCII ripple lies in [0,1], is 0 outside its 1.8 s life and 0 at its end; at the click instant its inner disc is the corrected one of finding 2 |
| RippleEffects.Inside | src/RippleAsciiEffect.js:68 | the inner disc contributes at most one half, and nothing at the click instant |
| RippleEffects.TotalAsciiRipple | src/RippleAsciiEffect.js:86-91 | the clamped ripple sum lies in [0,1] and is at least each ripple's intensity |
| RippleEffects.AsciiRippleNeedsLiveClick | src/RippleAsciiEffect.js:86-91 | with no live click the ASCII ripple is 0 |
| RippleEffects.InitialBurst | src/RippleClickEffectV2.js:238-243 | ten sentinel clicks at (-1,-1), head 0, not disposed |
| RippleEffects.BurstClick | src/RippleClickEffectV2.js:344-355 | a click writes the head slot with the current shader time, advances the head modulo 10 and changes nothing else |
| RippleEffects.Animate | src/RippleClickEffectV2.js:360-369 | a disposed effect does not animate; otherwise the shader time is elapsed * speed and the clicks are kept |
| RippleEffects.Dispose | src/RippleClickEffectV2.js:425-426 | disposing sets the flag and keeps the clicks |
| RippleEffects.UpdateImage | src/RippleClickEffectV2.js:371-375 | the image source becomes the new one, the same source changes nothing, and clicks, time and flag are kept |
| RippleEffects.UpdateImageIdempotent | src/RippleClickEffectV2.js:371-372 | loading the same image twice is the same as loading it once |
| RippleEffects.DisposedNeverAnimates | src/RippleClickEffectV2.js:360-363 | after dispose no click or image update makes the effect animate again |
| RippleEffects.Elapsed | src/RippleClickEffectV2.js:117 | the click's age is uTime minus click time, clamped at 0 |
| RippleEffects.BurstFrom | src/RippleClickEffectV2.js:110-123 | the burst loop's running maximum never drops below its start, covers every real click from i on, and is either the start or one of those clicks' pulses |
| RippleEffects.BurstIntensity | src/RippleClickEffectV2.js:110-123 | the burst is the maximum pulse over real clicks: non-negative, at least each real click's pulse, and 0 or equal to one of them |
| RippleEffects.SentinelsIgnored | src/RippleClickEffectV2.js:112-114 | slots with a negative x never change the burst |
| RippleEffects.InitialBurstIsZero | src/RippleClickEffectV2.js:238-243 | before any click the burst is 0 |
| RippleEffects.BurstDot | src/RippleClickEffectV2.js:126-133 | the burst dot is black or white |
| RippleEffects.BurstDotThreshold | src/RippleClickEffectV2.js:30-35 | the dot is white exactly when burst plus the 8x8 Bayer threshold of its cell reaches 1 |
| ThresholdMatrix.InverseWitness | src/CoinDitheringEffect.js:224-242 | a table with an inverse placement table is a permutation of 0..n*n-1 |
| ThresholdMatrix.ThresholdRange | src/CoinDitheringEffect.js:248-255 | a table entry divided by n*n lies in [0,1) and is an exact multiple of 1/(n*n) |
| ThresholdMatrix.ScanFrom | src/HoverTrailRippleEffect.js:56-59 | the scan loop yields 0 when the index is outside the table |
| ThresholdMatrix.ScanFinds | src/HoverTrailRippleEffect.js:56-59 | for an index inside the table the scan loop finds exactly that entry's threshold |
| ThresholdMatrix.AtLeastCount | src/CoinDitheringEffect.js:248-255 | exactly n*n - k cells of a permutation table have a value of at least k |
| Bayer.Table | src/CoinDitheringEffect.js:224-242 | the 2x2, 4x4 and 8x8 tables are square of their size |
| Bayer.TablesArePermutations | src/DitheringCopyEffect.js:106-124 | each Bayer table holds every value 0..n*n-1 exactly once |
| Bayer.ModelTableIsBackgroundTable | src/CoinDitheringEffect.js:63-73 | the coin model's 8x8 table is the background's 8x8 table |
| Bayer.ShaderTablesAreBackgroundTables | src/HoverTrailRippleEffect.js:38-54 | the effect shaders' inline tables equal the dithering tables |
| Bayer.TilePos | src/CoinDitheringEffect.js:245 | `floor(mod(uv, size))` is a cell index in 0..size-1 |
| Bayer.BayerIndex | src/CoinDitheringEffect.js:245-246 | the flattened lookup index lies in 0..size*size-1 |
| Bayer.GetBayerValue | src/CoinDitheringEffect.js:244-256 | a size other than 2, 4 or 8 yields 0 |
| Bayer.GetBayerValueRange | src/DitheringCopyEffect.js:126-138 | for sizes 2, 4 and 8 the threshold lies in [0,1) |
| Bayer.GetBayerValueInTile | src/CoinDitheringEffect.js:244-256 | inside the first tile the lookup reads table[floor y][floor x] / size^2 |
| Bayer.GetBayerValueTiles | src/CoinDitheringEffect.js:245 | the threshold repeats with period `size` in both directions |
| Bayer.ModelMatchesBackground | src/CoinDitheringEffect.js:94-98 | the coin model's lookup equals the background's 8x8 lookup |
| Bayer.GridIndex | src/HoverTrailRippleEffect.js:33-35 | the effect shader's index lies inside the table |
| Bayer.GridIndexIsBayerIndex | src/HoverTrailRippleEffect.js:33-35 | the effect shaders' `mod(floor(...))` index equals the dithering shader's `floor(mod(...))` index |
| Bayer.GridBayerIsGetBayerValue | src/PixelScrambleEffect.js:30-46 | a 4x4 or 8x8 effect-shader lookup equals the dithering lookup of the same size |
| Bayer.ShaderLookupsAreGetBayerValue | src/HoverTrailRippleEffect.js:32-60 | the `bayer8x8` and `bayer4x4` helpers agree with `getBayerValue` and lie in [0,1) |
| Bayer.CoinIndex | src/Coin3DEffect.js:70-76 | the coin shader's index is (4y + x) mod 16 |
| Bayer.CoinBayerRange | src/Coin3DEffect.js:62-79 | the coin shader's threshold lies in [0,1) |
| Bayer.CoinBayerLayout | src/Coin3DEffect.js:72-78 | in the first tile the coin lookup is the 4x4 table; four cells to the right it reads the next row instead of repeating |
| Bayer.ArithBayer2 | src/RippleClickEffectV2.js:30-33 | the arithmetic 2x2 formula takes only the values 0, 1/4, 1/2, 3/4 and equals the 2x2 table over 4 |
| Bayer.ArithBayer4IsTable | src/RippleClickEffectV2.js:34 | the recursive 4x4 macro equals the 4x4 table over 16 |
| Bayer.ArithBayer8IsTable | src/RippleClickEffectV2.js:34-35 | the recursive 8x8 macro equals the 8x8 table over 64 and lies in [0,1) |
| Dithering.DispatchRoundTrip | src/CoinDitheringEffect.js:383-399 | each type's code, plus any fraction below 1, dispatches back to that type |
| Dithering.DispatchDefault | src/DitheringCopyEffect.js:261-277 | the 8x8 branch is taken exactly for codes outside [1,4) |
| Dithering.DitherValue | src/CoinDitheringEffect.js:384-399 | random dithering is 1 exactly when the hash is at most the shape value; every table branch lies in [0,1) |
| Dithering.Res | src/DitheringCopyEffect.js:279-280 | `dithering -= .5; step(.5, shape + dithering)`, equivalently 1 exactly when shape plus the unshifted dithering reaches 1 |
| Dithering.RandomRes | src/CoinDitheringEffect.js:387-402 | with random dithering a pixel is lit exactly when the shape is at least 1, or non-negative and at least the hash |
| Dithering.TileDensity | src/CoinDitheringEffect.js:401-402 | a flat shape level of lit/n² lights exactly `lit` cells of a permutation table, so the lit fraction equals the level |
| Dithering.TableDensity | src/CoinDitheringEffect.js:401-402 | the 2x2, 4x4 and 8x8 tables each light exactly `lit` of their size² cells at level lit/size² |
| Dithering.Blend | src/DitheringCopyEffect.js:282-293 | one channel of the composite is the back channel when the pixel is off and the front channel over the back when it is on |
| Dithering.Composite | src/DitheringCopyEffect.js:282-293 | an unlit pixel shows the premultiplied back colour; a lit one shows the front over the back |
| Dithering.CompositeOpacity | src/CoinDitheringEffect.js:409-413 | the composite's alpha stays in [0,1] |
| Dithering.FragmentIsTwoColour | src/DitheringCopyEffect.js:261-293 | every fragment is exactly one of two colours, chosen by shape plus dither reaching 1 |
| Dithering.CoinFragment | src/CoinDitheringEffect.js:565-569 | the coin keeps the texel's colour and shows it fully where lit and not at all where unlit |
| Dithering.CoinOpacityBounded | src/CoinDitheringEffect.js:567 | the coin's alpha never exceeds the texel's |
| Dithering.ModelRes | src/CoinDitheringEffect.js:125-130 | the model pass's `res` is 0 or 1 |
| Dithering.ModelResBands | src/CoinDitheringEffect.js:118-130 | light below 0.7 is always dark, light from 1.7 is always lit, and otherwise light plus threshold must reach 1.7 |
| Dithering.ObjectShapes | src/CoinDitheringEffect.js:283 | wave, ripple, swirl and sphere use the object box, and the other shapes do not |
| Dithering.FitRoundTrip | src/CoinDitheringEffect.js:287-291 | each fit mode's code selects that mode |
| Dithering.GivenBoxSize | src/CoinDitheringEffect.js:271-272 | the given box is at least one pixel of the pixel ratio on each side |
| Dithering.BoxSize | src/CoinDitheringEffect.js:278-281 | a zero world size falls back to the resolution on that axis only |
| Dithering.ObjectBoxSize | src/CoinDitheringEffect.js:283-292 | the object box is square: the smaller box side without fit, the smaller resolution side under contain, the larger under cover |
| Dithering.PatternRatio | src/CoinDitheringEffect.js:277 | the pattern aspect ratio is positive |
| Dithering.PatternBoxSize | src/DitheringCopyEffect.js:183-192 | the pattern box keeps the ratio, fits inside the box or the resolution, or covers the resolution, touching one side |
| Glsl.Quantize | src/HoverTrailRippleEffect.js:100 | the low-fps clock lags the real time by less than one frame of the given rate |
| Glsl.Luma | src/AsciiScrambleEffect.js:58 | luminance of a unit colour lies in [0,1] and equals the grey level of a grey |
| Glsl.SmoothStep | src/HoverTrailRippleEffect.js:88 | smoothstep lies in [0,1] and saturates past either edge; with reversed edges it follows the usual implementation formula, which GLSL does not promise |
| Hover.Enter | src/PixelScrambleEffect.js:198-200 | entering sets the hover target to 1 only |
| Hover.Leave | src/PixelScrambleEffect.js:202-204 | leaving sets the hover target to 0 only |
| Hover.Move | src/PixelScrambleEffect.js:206-210 | the mouse maps into the unit square with y flipped, top-left to (0, 1) |
| Hover.Frame | src/PixelScrambleEffect.js:217 | each frame closes 10 % of the gap to the target and stays between current and target |
| Hover.FramesGap | src/PixelScrambleEffect.js:217 | after k frames the gap is 0.9^k of the original |
| Hover.FramesStayBetween | src/AsciiScrambleEffect.js:249 | the eased hover never leaves the interval between its start and target, so it stays in [0,1] |
| Hover.SettledStays | src/PixelScrambleEffect.js:217 | a hover already at its target never moves |
| Hover.InsideAura | src/PixelScrambleEffect.js:55-61 | the aura is full within 0.1 of the cursor, zero from 0.2, and never exceeds the hover value |
| Hover.Snap | src/PixelScrambleEffect.js:71-72 | snapping to a grid moves a coordinate down by less than one cell |
| Hover.NestedGrids | src/PixelScrambleEffect.js:64-72 | the large-pixel grid is aligned with the normal one, so snapping in either order gives the large-pixel corner |
| Hover.DitherCellIsLargePixel | src/PixelScrambleEffect.js:83 | the dithering cell coordinate is the large-pixel cell |
| Hover.AnimThreshold | src/PixelScrambleEffect.js:94-95 | the animated threshold stays within 0.15 of the base threshold and in [0,1] |
| Hover.PixelThreshold | src/PixelScrambleEffect.js:89-95 | the jittered pixel threshold is the 4x4 Bayer value moved by at most 0.15 |
| Hover.Dithered | src/PixelScrambleEffect.js:98 | a pixel is white exactly when its luminance reaches the threshold |
| Hover.PixelFragment | src/PixelScrambleEffect.js:96-104 | outside the aura the image is unchanged; in full aura it is the dithered black or white of the large pixel |
| AsciiGlyphs.LevelIndex | src/AsciiScrambleEffect.js:65 | a level in [0,1] maps to a ramp index, 0 at level 0 and the last at level 1 |
| AsciiGlyphs.LevelIndexMonotone | src/AsciiScrambleEffect.js:65 | a brighter level never picks an earlier character |
| AsciiGlyphs.ScrambledIndex | src/AsciiScrambleEffect.js:75 | the clamped scrambled index stays on the ramp, within the offset of the base index, and is the plain floor when no clamp applies |
| AsciiGlyphs.Offset | src/AsciiScrambleEffect.js:74 | the random offset never exceeds its style's reach |
| AsciiGlyphs.BaseIndex | src/RippleAsciiEffect.js:111 | the luminance index, inverted where the style says so, lies on the ramp |
| AsciiGlyphs.CharIndex | src/AsciiScrambleEffect.js:65-76 | the chosen character is on the ramp, equals the base index without intensity, and is otherwise within reach of it |
| AsciiGlyphs.Glyph | src/AsciiScrambleEffect.js:65-83 | every cell draws a character of its ramp |
| AsciiGlyphs.ExtremeCells | src/AsciiScrambleEffect.js:110 | without scrambling, white and black cells draw the ramp's ends, inverted in the ripple style |
| AsciiGlyphs.CharU | src/AsciiScrambleEffect.js:79 | the atlas coordinate lies inside the chosen character's column |
| AsciiGlyphs.AtlasColumn | src/AsciiScrambleEffect.js:79 | the atlas column read back from that coordinate is the chosen index |
| AsciiGlyphs.GlyphCentre | src/AsciiScrambleEffect.js:187-191 | each glyph is drawn at the centre of its atlas column |
| AsciiGlyphs.ShaderReadsDrawnGlyph | src/AsciiScrambleEffect.js:170-192 | the column the shader samples is the column where that glyph was drawn |
| AsciiGlyphs.Darkness | src/AsciiScrambleEffect.js:88 | a cell is dark exactly when its luminance is at most 0.5 |
| AsciiGlyphs.SoftDarkness | src/HoverTrailAsciiWhiteEffect.js:140 | soft darkness is full up to 0.25, zero from 0.75, and in [0,1] |
| AsciiGlyphs.HoverFragment | src/AsciiScrambleEffect.js:86-96 | outside the aura the image is unchanged; inside, bright cells turn white and dark cells show white ink-masked glyphs; alpha is kept |
| AsciiGlyphs.RippleFragment | src/RippleAsciiEffect.js:132-142 | the ripple only lightens, keeps alpha and unit colour, and leaves bright cells and ripple-free pixels unchanged |
| AsciiGlyphs.TrailFragment | src/HoverTrailAsciiWhiteEffect.js:139-155 | the trail keeps unit colour, never lowers alpha, and leaves bright cells and trail-free pixels unchanged |
| Coin3D.ContainerAspect | src/Coin3DEffect.js:193 | the container aspect is positive |
| Coin3D.CoinUVSize | src/Coin3DEffect.js:191-202 | one side of the coin's size is the image scale, neither exceeds it, and the sides keep the coin-to-container aspect |
| Coin3D.CoinUVInverse | src/Coin3DEffect.js:85-87 | the coin-space mapping is invertible: every coin texel is drawn at one fragment that reads it back |
| Coin3D.CoinBounds | src/Coin3DEffect.js:90-91 | the bounds mask is 1 exactly on the coin's unit square |
| Coin3D.EdgeFade | src/Coin3DEffect.js:94-97 | the edge fade lies in [0,1] and is full from 0.2 inside every edge |
| Coin3D.InCoin | src/Coin3DEffect.js:89-124 | the coin mask lies in [0,1], is 0 off the square or on nearly transparent texels, and is 1 in the interior of opaque texels |
| Coin3D.Composite | src/Coin3DEffect.js:140-144 | the final colour is background plus flicker off the coin, coin plus flicker on it, and in between elsewhere |
| Coin3D.CoinDither | src/Coin3DEffect.js:70-78 | the coin's dither threshold lies in [0,1) |
| Coin3D.OutsideCoinIsBackground | src/Coin3DEffect.js:85-97 | a fragment more than half the coin width from its centre shows only the background and flicker |

## Left out

- Rendering is not modelled: three.js scenes, the DOM, `requestAnimationFrame`, texture and FBX loading, and resize handling. The frame clock is a parameter (`time`, `nowMs`, `elapsed`).
- Noise, `fbm`, `snoise`, hash and sine-random functions are function parameters. Only their `fract` step is modelled.
- `distance`, `normalize`, `exp`, `sin` and `pow` are left out, because they have no exact real-number form. They appear as parameters: `dist`, `dir`, `pulse`, `noise`, `flicker`.
- Dithering shape functions (circle, sphere, swirl, wave and so on) are left out, because they are trigonometric. The shape value is a parameter.
- The Coin3D background wave, contrast and `pow` curve are left out for the same reason. So are the shape-dependent pixelation `uv` and the `lowFpsTime` quantisation inside each shader. Each shader receives its time already quantised; `Glsl.Quantize` states that rule once.
- The scrambler's `onAnimationStart`, `onAnimationFrame` and `onAnimationEnd` callbacks and the `innerHTML` write are left out. The written string is the `drawn` field.
- The `prefers-reduced-motion` media query is a boolean parameter of `ScrambleText.Init`.
- Floating-point rounding is not modelled; arithmetic is exact on reals.
- `main.js`, `Dithering.js`, `ethereum_coin.py` and the `.d.ts` declarations are not part of this model. The shape and type codes they declare are the same as the shaders'.
- Bayer.ModelGetBayerValue: the coin model's `getBayerValue` ignores its `size` argument and always reads the 8x8 table. It is modelled for size 8 only, the only size its caller passes.
- RippleEffects.BurstIntensity: the per-click pulse (ring, `exp` fall-off and fade) is a parameter. The contract states the maximum over live clicks, not the pulse shape.
- TrailEffects.CooldownMouseMove: the two `performance.now()` reads in one handler are one `nowMs` value.
- Hover.Move: requires a bounding rectangle of positive size. A zero-size canvas would divide by zero.
- Dithering.PatternRatio: requires a positive pixel ratio.
- ScrambleText.Options: `seed`, `step`, `tick`, `scramble` and the `range` codes are integers, while the program accepts any number. A fractional value changes the behaviour in ways the model cannot express. A fractional `scramble` such as 1.5 gives countdowns 2.5, 1.5, 0.5, -0.5; the last matches no case of the draw switch, so that position is never revealed and the animation never ends. A fractional `step` runs the step, resize and overdrive loops up to the next integer while `splice` truncates its count. A fractional `tick` such as 1.5 makes `stepCount % tick` zero only on every third step, and `String.fromCharCode` truncates a fractional code.
- Glsl.SmoothStep: GLSL defines `smoothstep` only for edge0 < edge1. The model gives every edge pair the usual implementation formula `t = clamp((x - e0) / (e1 - e0), 0, 1)`, `t * t * (3 - 2t)`, and the shaders rely on it for reversed edges (`RippleAsciiEffect.js`, `HoverTrailRippleEffect.js`, `PixelScrambleEffect.js`, `AsciiScrambleEffect.js`, `HoverTrailAsciiWhiteEffect.js`); that value is what GPUs compute, not what GLSL promises. Equal edges are excluded by a precondition, because the formula then divides by zero; finding 2 is about that case.
- RippleEffects.CalcRipple: at the click instant (elapsed time 0) the inner disc uses the corrected `RippleEffects.Inside`, which gives 0. With both edges 0 the shader's formula divides by zero; on IEEE hardware it gives 1, so an inner disc of 0.5, wherever the distance is positive. The model does not reproduce that value; see finding 2.
- ScrambleText.SeedForward: only the early return is stated directly. Its loop is `ScrambleText.SeedLoop`, and its effect on revealed positions is covered by `ScrambleProofs.TickKeepsRevealed`.
- The Coin3D shader's 4x4 index `(4y + x) mod 16` does not tile like a Bayer matrix. `Bayer.CoinBayerLayout` states the layout as written. This is not listed as a finding, because the visual intent is not evident.

## Findings

| source | as written | input that shows it | evidently intended | confidence | as-written member | corrected member |
|---|---|---|---|---|---|---|
| src/useScrambleText.js:103-105 | the cell pushed for position `control.length` reads `text[control.length + 1]` | the first frame of text `"ab c"` with the default options: the step makes position 0 a countdown, the push for position 1 reads the space of position 2, and the frame draws that space at position 1, where the text holds `b` | the pushed cell reads `text[control.length]`, the character of its own position | not executed; high | ScrambleProofs.AsWrittenFrameMisplacesIgnored | ScrambleText.ResizeControl |
| src/RippleAsciiEffect.js:68 | the inner disc is `smoothstep(currentRadius, currentRadius * 0.3, dist)` | a click read at its own instant: the elapsed time is 0, the ripple is alive, and both edges are 0, so the formula divides by zero; IEEE arithmetic gives +infinity, clamped to 1, so the inner disc is 0.5 at every positive distance, a flash over the whole screen | a disc of radius 0 contributes nothing | not executed; low | RippleEffects.AsWrittenInsideEdgesMeet | RippleEffects.Inside |
