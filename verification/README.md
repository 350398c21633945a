# Whiteboard drawing page — a Dafny model

This project models the logic of `scripts/whiteboard.js`, the script behind a
browser whiteboard page. The script keeps five page globals: `drawing`,
`currentTool`, `color`, `lastX` and `lastY`. Its event handlers update them as
follows:

- pointer and touch presses set the anchor point and turn drawing on;
- moves stroke a line segment from the last point, but only while drawing and
  only with the continuous tools `pen`, `marker` and `eraser`;
- releases, leaves, touch ends and touch cancels turn drawing off;
- a tool radio button sets the tool to its value, unchecked;
- three colour widgets feed one colour.

The colour widgets work like this:

- the native picker's value is adopted as it is;
- the hex field is adopted only if it matches `#` plus six hex digits;
- the RGB field is adopted only if it has three components in 0..255, which
  are then encoded as `#` plus two lower-case hex digits each;
- `setColor` mirrors the adopted colour into all three widgets, decoding it
  back to `r,g,b` for the RGB field.

`drawLine` derives the stroke style from the tool. The eraser paints
`#ffffff` and the marker draws 10 wide; otherwise the line is 2 wide in the
current colour.

Files:

- `colors.dfy` (module `Colors`): the colour codec as pure functions. It holds
  the two validators, `toString(16)`/`padStart` encoding, `parseInt`
  decoding, and the round-trip lemmas.
- `gestures.dfy` (module `Gestures`): the page state as a value. `Step` gives
  the next state and the segments stroked for each event, and `Run` folds a
  sequence of events. The lemmas cover style, ink, gestures and colour
  validity.
- `whiteboard.dfy` (module `Page`): class `Whiteboard`. It has the page
  globals as fields, the canvas as a ghost log of stroked segments, and the
  widgets as ghost fields. Each handler is a method proved to agree with
  `Step` and to keep the invariant `Valid()`.
- `fractions.dfy` (module `Fractions`): the RGB handler as written, on numbers
  that may carry a fraction. It shows that its range check lets a fractional
  component through and that the colour it then adopts is not a hex colour
  (see "## Findings").

## Model

| member | source | states |
|---|---|---|
| `Colors.DigitValue` | scripts/whiteboard.js:27-29 | a hex digit of either case has a value below 16, and below 10 exactly for `0`-`9` |
| `Colors.LowerDigit` | scripts/whiteboard.js:41 | the digit `toString(16)` writes for a value below 16 is a lower-case hex digit that reads back as that value |
| `Colors.ToHexDigits` | scripts/whiteboard.js:41 | `n.toString(16)` is a non-empty string of lower-case hex digits, for every natural number |
| `Colors.PadStart` | scripts/whiteboard.js:41 | `padStart` gives the longer of the width and the input, ends with the input, and fills the front with the filler |
| `Colors.ParseToHex` | scripts/whiteboard.js:27-41 | parsing in base 16 what `toString(16)` wrote gives back the number, for every natural number |
| `Colors.ByteHexDigits` | scripts/whiteboard.js:41 | a component in 0..255 is written as exactly two lower-case digits, high nibble then low, zero-padded below 16 |
| `Colors.Decode` | scripts/whiteboard.js:27-29 | the three slices 1..3, 3..5 and 5..7 of a valid hex colour read as high digit × 16 + low digit, each below 256 |
| `Colors.ParseTwoDigits` | scripts/whiteboard.js:27-29 | `parseInt` of a two-digit slice is high digit × 16 + low digit and is below 256 |
| `Colors.Decimal` | scripts/whiteboard.js:30 | the `${n}` numeral written into the RGB field is a non-empty string of decimal digits |
| `Colors.ParseToDecimal` | scripts/whiteboard.js:30 | reading back in base 10 the numeral `${n}` wrote gives the number again, for every natural number |
| `Colors.EncodeShape` | scripts/whiteboard.js:39-42 | an accepted triple encodes to `#` followed by six lower-case hex digits, two per component, high nibble first, so it passes the hex field's pattern |
| `Colors.NibblesAreLowerHex` | scripts/whiteboard.js:41 | `#` followed by a triple's six nibble digits passes the hex field's pattern and has no upper-case letter |
| `Colors.DecodeNibbles` | scripts/whiteboard.js:27-29 | decoding `#` followed by a triple's nibble digits gives that triple |
| `Colors.NibblesOfDecode` | scripts/whiteboard.js:27-29 | the decoded triple of a valid hex colour is in range, and its nibble digits are the colour's own six digits, lower-cased |
| `Colors.DecodeEncode` | scripts/whiteboard.js:27-41 | round trip: decoding the encoding of any triple in 0..255 gives the same triple |
| `Colors.EncodeDecode` | scripts/whiteboard.js:24-41 | round trip: for any valid hex colour, re-encoding its decoded triple gives the colour with its letters lower-cased (the decoded triple is in range) |
| `Gestures.AfterHexChange` | scripts/whiteboard.js:34-37 | the hex field's value is adopted exactly when it is `#` plus six hex digits, otherwise the colour is kept |
| `Gestures.AfterRgbChange` | scripts/whiteboard.js:38-44 | three components in 0..255 yield a valid hex colour written in lower case that decodes to those components; anything else keeps the colour |
| `Gestures.Run` | scripts/whiteboard.js:55-94 | a run of events strokes no more segments than it has events |
| `Gestures.StepInk` | scripts/whiteboard.js:55-94 | an event strokes at most one segment, and strokes one exactly when it is a move while drawing with `pen`, `marker` or `eraser`; only a tool change changes the tool, only a colour event the colour |
| `Gestures.StyleOfTool` | scripts/whiteboard.js:46-48 | the stroke colour is `#ffffff` exactly when the tool is the eraser or the colour is itself white, otherwise the colour; the width is 10 exactly for the marker, else 2 |
| `Gestures.StepKeepsColourValid` | scripts/whiteboard.js:33-48 | from a valid colour, any well-formed event (a picker value `#rrggbb`, RGB components whole numbers) keeps the colour valid and strokes only segments with a valid hex style and width 2 or 10 |
| `Gestures.RunKeepsColourValid` | scripts/whiteboard.js:33-94 | the same holds over any sequence of events |
| `Gestures.RunAppend` | scripts/whiteboard.js:55-94 | handling two event sequences one after the other is handling their concatenation; the strokes are concatenated |
| `Gestures.StepMove` | scripts/whiteboard.js:60-67 | mouse and touch moves follow the same rule, at their own point |
| `Gestures.MovesWithoutInk` | scripts/whiteboard.js:60-67 | moves while not drawing, or with a tool other than `pen`/`marker`/`eraser`, change nothing and stroke nothing |
| `Gestures.TraceChained` | scripts/whiteboard.js:63-65 | the polyline `Trace` expects has one segment per move, the first from the start point, each later one from the previous move's point, each ending at its own move, all in the tool's style |
| `Gestures.StrokeFollowsPointer` | scripts/whiteboard.js:60-67 | moves while drawing with a continuous tool stroke exactly that polyline from the last point, in the current tool and colour, and leave the last point at the final move, nothing else changed |
| `Gestures.Gesture` | scripts/whiteboard.js:55-70 | press, moves, release with a continuous tool stroke exactly the polyline from the press point through every move, and end not drawing with tool and colour unchanged |
| `Gestures.ReleaseStopsInk` | scripts/whiteboard.js:69-70 | after a release, any moves stroke nothing and only `drawing` has changed |
| `Gestures.PressAnchors` | scripts/whiteboard.js:55-58 | a press turns drawing on and re-anchors at its point, even in the middle of a gesture, touching nothing else |
| `Page.Whiteboard.constructor` | scripts/whiteboard.js:7-11 | the page starts not drawing, with the pen, black `#000000`, last point (0,0) and an empty canvas |
| `Page.Whiteboard.OnToolChange` | scripts/whiteboard.js:13-17 | any string becomes the tool; the canvas and colour are untouched |
| `Page.Whiteboard.SetColor` | scripts/whiteboard.js:23-31 | the colour and the picker and hex widgets take the value verbatim, and the RGB widget shows its decoded `r,g,b` |
| `Page.Whiteboard.OnPickerInput` | scripts/whiteboard.js:33 | the picker's value is adopted and mirrored, as `Step` says |
| `Page.Whiteboard.OnHexChange` | scripts/whiteboard.js:34-37 | a value matching the pattern becomes the colour and the picker and hex widgets' value, and the RGB widget shows its decoded `r,g,b`; any other value leaves the whole page unchanged |
| `Page.Whiteboard.OnRgbChange` | scripts/whiteboard.js:38-44 | three components in 0..255 are adopted as their encoding, which decodes back to them; the picker and hex widgets show that encoding and the RGB widget the components; anything else leaves the whole page unchanged |
| `Page.Whiteboard.DrawLine` | scripts/whiteboard.js:46-53 | exactly one segment is appended to the canvas, styled by the current tool and colour |
| `Page.Whiteboard.OnMouseDown` | scripts/whiteboard.js:55-58 | drawing turns on and the last point becomes the press point; the canvas is untouched |
| `Page.Whiteboard.OnMouseMove` | scripts/whiteboard.js:60-67 | the new globals and the appended strokes are those `Step` gives for the move |
| `Page.Whiteboard.OnMouseUp` | scripts/whiteboard.js:69 | only `drawing` changes, to false |
| `Page.Whiteboard.OnMouseLeave` | scripts/whiteboard.js:70 | only `drawing` changes, to false |
| `Page.Whiteboard.OnTouchStart` | scripts/whiteboard.js:72-78 | drawing turns on and the last point becomes the touch point; the canvas is untouched |
| `Page.Whiteboard.OnTouchMove` | scripts/whiteboard.js:80-91 | the new globals and the appended strokes are those `Step` gives for the move |
| `Page.Whiteboard.OnTouchEnd` | scripts/whiteboard.js:93 | only `drawing` changes, to false |
| `Page.Whiteboard.OnTouchCancel` | scripts/whiteboard.js:94 | only `drawing` changes, to false |
| `Fractions.HexOfNumberDigits` | scripts/whiteboard.js:41 | `toString(16)` of a number with one base-16 fractional digit is non-empty, and all hex digits exactly when the number is whole |
| `Fractions.AsWrittenOnWhole` | scripts/whiteboard.js:39-42 | on whole components the handler as written passes its check and builds exactly the integer encoding `Colors.Encode` |
| `Fractions.WholeIsValid` | scripts/whiteboard.js:39-42 | with every component whole, the string the handler builds passes the hex field's pattern |
| `Fractions.FractionIsInvalid` | scripts/whiteboard.js:39-42 | with any component fractional, the string the handler builds is longer than seven characters and fails the pattern |
| `Fractions.AsWrittenValidExactlyWhenWhole` | scripts/whiteboard.js:39-42 | among the triples the range check lets through, the handler adopts a hex colour exactly when every component is whole |
| `Fractions.FractionAdoptsNonHex` | scripts/whiteboard.js:39-42 | `0.5,0,0` passes the check and the handler hands `setColor` the string `#0.80000`, which is not a hex colour |

Every `Page.Whiteboard` method also keeps `Valid()`. That invariant says the
colour is a valid hex string and every stroked segment has a valid hex style
and width 2 or 10. It rests on the RGB field's components being whole
numbers: `Page.Whiteboard.OnRgbChange` and `Gestures.RgbChange` take them as
integers. The script itself does not enforce that. A fractional component
such as `0.5,0,0` passes the range check at scripts/whiteboard.js:40 and makes
the page adopt `#0.80000`, which breaks the invariant; module `Fractions`
proves this (see "## Findings").

Further points of behaviour the model keeps as the script has them:

- The colour is kept as the hex string the widget supplied, upper case
  included.
- Any string is accepted as a tool name; an unknown name draws nothing
  because it is not continuous.
- A press during a gesture re-anchors at the new point.

## Left out

- Rendering: `beginPath`/`moveTo`/`lineTo`/`stroke` are replaced by appending a `Segment` to the ghost canvas log.
- DOM lookups and listener registration: each listener is a method or an `Event` constructor.
- Touch coordinate translation through `getBoundingClientRect`, and mouse offsets: points arrive already canvas-local, as parameters.
- Coordinates are integers; the browser's floating-point coordinates are not modelled.
- The resize handler (scripts/whiteboard.js:96-101) is left out. It is a pixel copy through `getImageData`/`putImageData`, with no logic of its own.
- `Page.Whiteboard.OnRgbChange`: takes the components already split on `,` and converted by `Number`, as integers. Whitespace, hexadecimal and exponent forms, and the empty component (`Number("") == 0`) are not modelled. Fractional components, which the range check lets through, are modelled only in module `Fractions`, and there only with at most one base-16 fractional digit; negative zero and other floating-point values are not modelled.
- `Page.Whiteboard.OnPickerInput`, `Page.Whiteboard.SetColor`: require a valid `#rrggbb` value. A native colour input only reports such values. `parseInt`'s lenient handling of other text is not modelled.
- `Colors.ParseHex` models `parseInt(s, 16)` only on non-empty strings of hex digits. Those are the slices `setColor` hands it while the colour is a hex colour. The slices of a non-hex colour are not modelled: for `#0.80000` they are `0.`, `.8` and `00`, and the RGB field would show `0,NaN,0`.
- The widgets' initial values come from the page markup, which is not part of this model. They are constructor parameters.
- scripts/ads.js renders a fixed list of adverts into the page and has no logic to model.

## Findings

| source | as written | input that shows it | evidently intended | confidence | as-written member | corrected member |
|---|---|---|---|---|---|---|
| scripts/whiteboard.js:40-41 | the check `n >= 0 && n <= 255` lets a fractional number through, and `n.toString(16)` then writes it with a `.` | RGB field `0.5,0,0`: the handler calls `setColor("#0.80000")`, so `color` is no longer `#` plus six hex digits | only three whole components in 0..255 are adopted, so the colour stays a hex colour | high, not executed | `Fractions.FractionAdoptsNonHex` | `Gestures.AfterRgbChange` |
