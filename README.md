# Star field background, modelled in Dafny

This project models the animated star field behind a single-page portfolio
site (`src/app/components/StarField.tsx`). The component has three parts:

- `generateStarBoxShadow(count, maxWidth, maxHeight)` draws `count` random
  points on the canvas. Each coordinate is `Math.floor(Math.random() * max)`.
  It formats each point as `<x>px <y>px white` and joins the entries with
  `", "` into one CSS `box-shadow` value list. That value syntax is defined in
  section 7.1 of CSS Backgrounds and Borders Module Level 3.
- `StarLayer` builds two inline style records around one generated list.
  The outer node carries the shadows and the `animStar` animation. The inner
  duplicate carries the same shadows at `top: 2000`, which is the canvas
  height given to the generator, so the vertical scroll wraps without a seam.
- `StarField` renders three layers: (300 stars, size 1, 50 s),
  (150, 2, 100 s) and (80, 3, 150 s).

Modules, one per concern:

- `Text` (`text.dfy`) holds the string primitives the component uses.
  `IntToString` is what `${n}` prints for an integer `n` with
  `|n| < 10^21`. `Join` is
  `Array.prototype.join`. It also holds their inverses, which are used to
  state properties: `Split` (`String.prototype.split`), `ParseNat` and
  `ParseInt`.
- `StarPattern` (`star_pattern.dfy`) holds the generator. The method
  `GenerateStarBoxShadow` keeps the source's counted loop and its growing
  `stars` array. It is proved equal to `Serialise(Pattern(...))`. The
  generator's properties are proved about those functions. `Decode`, which
  reads a box-shadow list back into stars, is the serialiser's partner.
- `StarLayer` (`star_layer.dfy`) holds the style records as datatypes and
  the per-render method `RenderStarLayer`.
- `StarField` (`star_field.dfy`) holds the constant layer list and the
  method that renders the field.

Randomness is an input. Each generator call takes a sequence `draws` of
reals. Iteration `i` uses `draws[2 * i]` for `x` and then `draws[2 * i + 1]`
for `y`, which is the order the source calls `Math.random()` in.
`ValidDraws` says every draw lies in `[0, 1)`, as `Math.random()` promises.
Arithmetic on draws is exact `real` arithmetic, and `Math.floor` is `.Floor`.

A star pattern is not kept for the lifetime of a layer.
`generateStarBoxShadow` is called on every `StarLayer` render (StarField.tsx
line 22), with no memoisation. `RenderStarLayer` therefore models one render,
and the shared shadow list is stated only within that render. There is also no
input check. A count of zero or less runs the loop zero times and returns
`""`. Without a positive canvas size, nothing is promised about the
coordinates.

## Model

| member | source | states |
|---|---|---|
| `Text.NatToString` | src/app/components/StarField.tsx:16 | the decimal text of a natural number is non-empty, all digits, and has no leading zero |
| `Text.ParseNatToString` | src/app/components/StarField.tsx:16 | reading the decimal text of `n` back gives `n` |
| `Text.IntToString` | src/app/components/StarField.tsx:16 | `${n}` for an integer below `10^21` in magnitude is an optional minus sign followed by at least one decimal digit, and the sign is there exactly when `n` is negative |
| `Text.ParseIntToString` | src/app/components/StarField.tsx:16 | the text `${n}` reads back as exactly `n`, so no coordinate is lost in formatting |
| `Text.Join` | src/app/components/StarField.tsx:18 | `stars.join(", ")` begins with the first entry; that it puts the separator between neighbours only, with none leading or trailing, is stated by `Text.SplitJoin` and `Text.JoinSplit` |
| `Text.SplitJoin` | src/app/components/StarField.tsx:18 | splitting `xs.join(sep)` on `sep` gives back `xs` exactly, as long as no element contains the separator's first character |
| `Text.JoinSplit` | src/app/components/StarField.tsx:18 | joining the pieces of `s.split(sep)` with `sep` gives back `s` exactly |
| `StarPattern.Coordinate` | src/app/components/StarField.tsx:14-15 | `Math.floor(r * max)` lies in `[0, max)` for every draw `r` in `[0, 1)` and every `max > 0` |
| `StarPattern.Pattern` | src/app/components/StarField.tsx:13-15 | the loop draws `max(count, 0)` stars, and with valid draws and a positive canvas every star is inside the canvas |
| `StarPattern.Entry` | src/app/components/StarField.tsx:16 | the entry `${x}px ${y}px white` holds no comma, so it cannot be mistaken for two entries; that it reads back as the star is stated by `StarPattern.EntryRoundTrip` |
| `StarPattern.EntryRoundTrip` | src/app/components/StarField.tsx:16 | the entry `${x}px ${y}px white` is non-empty, has no comma, and parses back as exactly the star `(x, y)` |
| `StarPattern.Serialise` | src/app/components/StarField.tsx:12-18 | the joined box-shadow list is empty exactly when there are no stars; its pieces and its round-trip are stated by `StarPattern.SerialisePieces` and `StarPattern.DecodeSerialise` |
| `StarPattern.SerialisePieces` | src/app/components/StarField.tsx:12-18 | splitting a non-empty result on `", "` gives one piece per star, in order, each being that star's entry, so there is no stray or trailing separator |
| `StarPattern.SerialiseEmpty` | src/app/components/StarField.tsx:12-18 | the result is the empty string exactly when there are no stars |
| `StarPattern.DecodeSerialise` | src/app/components/StarField.tsx:12-18 | decoding the box-shadow list gives back exactly the drawn stars: none lost, reordered or altered |
| `StarPattern.GeneratedPieces` | src/app/components/StarField.tsx:13-18 | for `count > 0` there are exactly `count` pieces, and piece `i` is the entry of the draws of iteration `i`; with valid draws it reads `<x>px <y>px white` with non-negative decimals `x < maxWidth` and `y < maxHeight` |
| `StarPattern.GenerateStarBoxShadow` | src/app/components/StarField.tsx:11-19 | the loop-and-join method returns the serialisation of the pattern of its draws, which decodes to that pattern, and it returns `""` exactly when `count <= 0` |
| `StarLayer.Animation` | src/app/components/StarField.tsx:31 | the animation shorthand starts with the keyframes name `animStar` and a space; its four tokens are stated by `StarLayer.AnimationTokens` |
| `StarLayer.AnimationTokens` | src/app/components/StarField.tsx:31 | the animation shorthand consists of the tokens `animStar`, `<duration>s`, `linear` and `infinite` |
| `StarLayer.Styles` | src/app/components/StarField.tsx:23-42 | the duplicate's `top` equals the canvas height given to the generator; the outer node sits at `top 0, left 0` and carries the `animStar` shorthand for the given duration; both records carry the given shadow list and are `size` by `size` |
| `StarLayer.RenderStarLayer` | src/app/components/StarField.tsx:21-49 | one render builds the style records from one freshly generated list on the 2000 by 2000 canvas; both copies share that list, which decodes to the drawn pattern; with valid draws every star of the primary copy lies above the duplicate's offset and every star of the duplicate lies below it, so the copies tile without overlapping |
| `StarField.LayersAreDepthOrdered` | src/app/components/StarField.tsx:54-56 | the constant `Layers`, the props of the three `<StarLayer />` elements: there are three layer configurations, all positive; the count strictly falls while size and duration strictly rise |
| `StarField.RenderStarField` | src/app/components/StarField.tsx:51-59 | the field renders three layers, in order, each built from its own configuration and its own draws |
| `StarField.LayerShadow` | src/app/components/StarField.tsx:22 | for any layer configuration with a positive count, the layer's shadow list splits into exactly `count` entries and decodes to the layer's own pattern |
| `StarField.FieldLayers` | src/app/components/StarField.tsx:51-59 | the rendered layers hold 300, 150 and 80 shadow entries; each list decodes to its own layer's pattern and is shared by both copies; each duplicate sits one canvas height down |

## Left out

- `src/app/page.tsx` is not part of this model. It is declarative page layout, translated text, navigation links and a dropdown toggle, with no algorithmic content.
- React rendering, the JSX tree and the CSS engine are not modelled. The style records are plain data, and `<div style><div afterStyle/></div>` is the `Layer` datatype.
- The `animStar` keyframes are defined outside the component. So the scroll distance cannot be tied to the duplicate's offset, and only the offset side of the seam is modelled.
- The entropy source behind `Math.random()` and IEEE-754 rounding of `Math.random() * max` are replaced by injected exact reals in `[0, 1)`.
- Text.IntToString: prints plain decimal digits for every integer. From `|n| >= 10^21` on, JavaScript prints `${n}` in exponent form (`1e+21`), which is not modelled. The component's own values (coordinates below 2000, durations up to 150) are far below that bound.
- Counts, sizes, durations and canvas dimensions are integers. A fractional or non-finite `number` is not modelled (for example, a count of `2.5` runs the loop three times).
- `Math.floor` of a negative zero prints as `0`. The model has no negative zero, and its `0` prints the same way.
- Generation once per layer lifetime is not claimed, because the source regenerates on every render. Re-render idempotence is not claimed either.
