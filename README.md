# ofxFontStash text layout in Dafny

This project models the text-layout logic of the ofxFontStash addon
(`src/ofxFontStash.cpp`) and proves properties of it. The model has three
parts, plus two small helpers:

- **The greedy line breaker of `drawMultiLineColumn`.** It walks the text
  one codepoint at a time and measures the growing line. It breaks at an
  explicit newline, or when the line is wider than `maxW`. A line that
  overflows is cut back to its last whitespace by `walkAndFill`. A line
  that overflows without any whitespace is kept whole, and the
  `wordsWereTruncated` flag is raised. After the breaker come the line
  count under the `maxLines` cap and the reflowed text handed back with
  the breaks written in as newlines.
- **The styled word tokenizer of `drawMultiColumnFormatted`.** It puts a
  space before every newline, then splits the text into lines and the
  lines into space-separated pieces. A piece beginning with `@`, `#` or
  `%` switches the font, the colour or the scale. Every other piece is
  measured in the current style and pushed onto five parallel lists:
  words, sizes, fonts, colours and scales. Each logical line ends with a
  zero-size `"\n"` marker.
- **The column flow of `drawMultiColumnFormatted`.** A pen moves right by
  each word's width. It drops one line, `lineHeight * size * scale`
  further down, when it is not at the left edge and the word would cross
  the column or is a marker. The call returns the furthest x reached and
  the final height, corrected by one line step and the ascent.
- **`toFonsColor`** packs a colour into a 32-bit word, and
  **`searchAndReplace`** replaces the first occurrence of a substring.

Text is a sequence of Unicode scalar values (`Text.Codepoint`), and
positions in it are indices. Widths, sizes and scales are `real`.

Whatever the rasterizer supplies is a parameter of the model:

- the width of a run of text (`getBBox(...).width` in the breaker,
  `fonsTextBounds` in the tokenizer);
- the whitespace test (`ofUnicode::isSpace`);
- the font ascent (`fonsVertMetrics`);
- the parsers `ofToInt`, `ofHexToInt` with `ofColor::fromHex`, and
  `ofToFloat`.

Drawing is not performed; it is modelled by what is drawn. The flow
returns the list of draw calls (word, position, font, colour, size) it
would issue, and the breaker returns the lines and how many of them are
drawn.

Each loop of the source is a method proved equal to a recursive
specification function:

| method | specification function |
|---|---|
| `LineBreaker.BreakLines` | `LineBreaker.LayoutOf`: the source's layout with `AsWritten`, the corrected one with `Corrected` |
| `LineBreaker.WalkAndFill` | `LineBreaker.Fill` |
| `Reflow.Rejoin` | `Text.Join` |
| `Tokenizer.TokenizeLine` and `Tokenizer.Tokenize` | `Tokens.LineTokens` and `Tokens.TextTokens` |
| `ColumnFlow.Flow` | `ColumnFlow.FlowOf` and `ColumnFlow.DrawsOf` |

The properties are lemmas about those functions. The layout lemmas in
`LineBreakProps`, `Reflow` and `LayoutCases` take the resume rule as a
parameter, so they hold of the source's layout as well as the corrected
one; only `LineBreakProps.StepCovers` and
`LineBreakProps.LayoutPreservesCount` are about the corrected layout
alone. The tokenizer's result for any text, codes included, is
characterized word by word in `TokenStyles`.

## Where the model follows the code rather than its description

- **Ascent for `topLeftAlign`.** It is taken for the font and scale in
  force at the END of the text, not at its start, because the code asks
  for it after tokenizing (src/ofxFontStash.cpp:415-421).
- **Leading whitespace.** A line wrapped at whitespace and the last
  line lose their leading whitespace, the first line included
  (`walkAndFill` and the final flush). A line ended by a newline keeps
  it: only the newline is cut off (src/ofxFontStash.cpp:247-253).
- **Long words.** A word wider than the column is not kept on a line of
  its own. The overflowing line is drawn as far as the codepoint that
  overflowed, and the rest of the word continues on the next line
  (`LayoutCases.LongWordSpills`).
- **Reflowed text is not a fixed point.** Breaking it again can give
  different lines (`LayoutCases.RejoinNotIdempotent`).
- **The empty text.** It gives no lines, but its reflowed text, `""`,
  splits into one empty segment (`Reflow.RejoinedSegments`).
- **A code glued to a word.** A piece is a code as soon as it begins
  with `@`, `#` or `%`, whatever follows. In "@1 Hello #FF0000World" the
  piece "#FF0000World" is one colour code, and "FF0000World" goes to the
  hex parser (src/ofxFontStash.cpp:372-375). The text gives the single
  word "Hello " and then the line's marker, in the new colour
  (`TokenizerCases.StyledExample`).
- **`maxLines`.**
  - A cap of 0 or less hands back `""`.
  - A cap below the line count hands back a trailing newline.
  - `numLines` is the full line count whatever the cap.
- **Sizes in `drawMultiColumnFormatted`.**
  - Words are measured at `size * scale / dpiScale`, but drawn at
    `size * scale`.
  - A line jump is `lineHeight * size * scale`, but the returned height
    subtracts `lineHeight * size / dpiScale`.

## Model

| member | source | states |
|---|---|---|
| LineBreaker.FirstBreak | src/ofxFontStash.cpp:234-253 | the break position found is a real break: the line measured there overflows `maxW`, or ends in a newline |
| LineBreakProps.FirstBreakMinimal | src/ofxFontStash.cpp:234-253 | no break happens between the line start and the reported break, and "no break" means no position up to the end of the text breaks |
| LineBreaker.LastSpaceEnd | src/ofxFontStash.cpp:236-239 | `lastSpace` lies between the line start and the break position |
| LineBreakProps.LastSpaceEndSpec | src/ofxFontStash.cpp:236-239 | `lastSpace` is just past a whitespace codepoint and nothing between it and the break is whitespace, so it is the end of the last whitespace consumed; it stays at the line start only when the line holds no whitespace |
| LineBreaker.FillShape | src/ofxFontStash.cpp:540-556 | `walkAndFill`'s result never starts with whitespace; from a non-whitespace start it is the text up to `end`; when `end` falls within the leading whitespace it is the whole range less that whitespace |
| LineBreaker.WalkAndFill | src/ofxFontStash.cpp:540-556 | the loop returns exactly that line |
| LineBreaker.Resume | src/ofxFontStash.cpp:261-263 | corrected (see ## Findings): after a wrap at whitespace, scanning resumes strictly after the line start and no later than the break |
| LineBreaker.ResumeOf | src/ofxFontStash.cpp:261-263 | under either rule, the source's `!isSpace(text[lineStart])` test (`AsWritten`) or the corrected one, scanning resumes strictly after the line start and no later than the break |
| LineBreaker.StepOf | src/ofxFontStash.cpp:241-282 | one line as emitted (newline-ended, wrapped at whitespace, an unbreakable overflow, or the rest of the text) and the resume position, which under either rule is strictly after the line start, so the loop terminates for any `maxW` |
| LineBreaker.StepOfBreak | src/ofxFontStash.cpp:241-276 | under either resume rule, a newline-ended line is the line less its newline (" " for a lone newline), a line wrapped at whitespace is `walkAndFill` up to the last whitespace, and a line without whitespace is emitted whole and flagged; only the resume position depends on the rule |
| LineBreaker.BreakLine | src/ofxFontStash.cpp:240-276 | the body of the loop on a break: it emits the line the step describes and resumes where it says; with `AsWritten` it uses the source's test `!isSpace(text[lineStart])`, with `Corrected` the corrected one |
| LineBreaker.FlushLine | src/ofxFontStash.cpp:277-282 | the last line, reached without a break, is the rest of the text without its leading whitespace |
| LineBreaker.BreakLines | src/ofxFontStash.cpp:226-283 | the breaking loop's lines and truncation flag are those of the layout for its resume rule: the source's with `AsWritten`, the corrected one with `Corrected` |
| LineBreakProps.StepCovers | src/ofxFontStash.cpp:241-276 | under the corrected rule, each emitted line comes from the stretch of text its step consumes: a wrapped or last line is that stretch less its leading whitespace, a newline-ended line is the stretch less only its newline, keeping its leading whitespace, and a lone newline becomes " " |
| LineBreakProps.LayoutPreservesCount | src/ofxFontStash.cpp:226-283 | under the corrected rule, the lines together hold every non-whitespace, non-newline codepoint of the text exactly as often as the text does: nothing is lost or invented |
| LineBreakProps.LayoutNoNewline | src/ofxFontStash.cpp:241-253 | under either resume rule, so for the source's layout too: no emitted line contains a newline |
| LineBreakProps.LayoutLineCount | src/ofxFontStash.cpp:234-283 | under either resume rule, so for the source's layout too: a non-empty text gives at least one line, never more lines than codepoints, and the empty text gives none |
| LineBreakProps.LayoutFits | src/ofxFontStash.cpp:277-282 | under either resume rule, so for the source's layout too: a text that never overflows and has no newline is one line: the text without its leading whitespace, not flagged |
| LineBreakProps.NewlineRun | src/ofxFontStash.cpp:241-247 | under either resume rule, so for the source's layout too: a run of m newlines gives m lines, each a single space, so consecutive newlines are kept as separate lines |
| LineBreakProps.StepTruncated | src/ofxFontStash.cpp:264-269 | under either resume rule, so for the source's layout too: a line is flagged exactly when it overflows without a newline and holds no whitespace; it is then emitted whole and is wider than `maxW` |
| LineBreakProps.LayoutTruncated | src/ofxFontStash.cpp:256-269 | under either resume rule, so for the source's layout too: the flag is raised only if some emitted line has no whitespace and is wider than `maxW` |
| LineBreakFinding.AsWrittenSameLine | src/ofxFontStash.cpp:241-276 | from any start, the source's step and the corrected step emit the same line with the same flag; they differ only in where they resume |
| LineBreakFinding.AsWrittenAgrees | src/ofxFontStash.cpp:261-263 | on a line not starting with whitespace, the source's step and the corrected step agree |
| LineBreakFinding.AsWrittenDropsCodepoints | src/ofxFontStash.cpp:261-263 | for " ab cd" in a five-unit monospaced column the source draws only "ab ", losing "cd"; the corrected breaker draws "ab " and "cd" |
| Reflow.LinesToDraw | src/ofxFontStash.cpp:286-293 | the lines drawn are all of them when `maxLines <= 0`, otherwise the smaller of the count and the cap |
| Reflow.Rejoin | src/ofxFontStash.cpp:315-323 | the text handed back: "" for a cap <= 0; the lines joined by newlines, with no trailing newline, when the cap covers them; the first `maxLines` lines joined, plus a trailing newline, otherwise |
| Reflow.DrawMultiLineColumn | src/ofxFontStash.cpp:203-328 | without a stash only the flag is reset and the text and count are left alone; otherwise `numLines` is the full line count, the flag is the layout's, the lines drawn follow the cap, and the text handed back is the rejoined lines; the layout is the source's with `AsWritten` and the corrected one with `Corrected` |
| Reflow.RejoinedSegments | src/ofxFontStash.cpp:315-323 | under either resume rule: the uncapped reflowed text splits at its newlines into exactly the emitted lines; the empty text is the one exception |
| LayoutCases.LongWordSpills | src/ofxFontStash.cpp:264-269 | under either resume rule: "abcdef" in a three-unit column gives "abcd" (flagged) and "ef" |
| LayoutCases.RejoinNotIdempotent | src/ofxFontStash.cpp:315-323 | under either resume rule: breaking "ab c" two units wide and rejoining gives "ab \nc", which breaks into three lines, not the same two |
| Colors.ToFonsColor | src/ofxFontStash.cpp:52-54 | red, green, blue and alpha are bytes 0 to 3 of the packed word |
| Colors.FromFonsColor | src/ofxFontStash.cpp:52-54 | every 32-bit word is the packing of some colour; with `ToFonsColor`'s contract, which recovers each channel, packing is a bijection |
| SearchReplace.Find | src/ofxFontStash.cpp:65 | a position found is an occurrence at or after the starting point |
| SearchReplace.FindFirst | src/ofxFontStash.cpp:65 | that occurrence is the first one, and nothing is found only when there is none |
| SearchReplace.SearchAndReplace | src/ofxFontStash.cpp:61-66 | when the substring occurs, the result is the text with its first occurrence replaced; when it does not, there is no result |
| Text.SplitPieces | src/ofxFontStash.cpp:358-361 | splitting keeps empty pieces: no piece holds the delimiter, and there is one more piece than there are delimiters |
| Text.JoinSplit | src/ofxFontStash.cpp:358-361 | joining the pieces with the delimiter gives back the text |
| Text.SplitJoin | src/ofxFontStash.cpp:315-323 | splitting lines joined by newlines, none of which holds a newline, gives back the lines |
| Tokens.ReplaceNewlines | src/ofxFontStash.cpp:344 | the rewrite adds one codepoint per newline and keeps the number of newlines |
| Tokens.Pieces | src/ofxFontStash.cpp:358-361 | there is one logical line per newline plus one |
| Tokens.WordStep | src/ofxFontStash.cpp:363-398 | a code piece emits nothing and changes only its own style component; any other piece emits one word, with a space after it unless it is the line's last piece, measured at `size * scale / dpiScale` in the current font, colour and scale |
| Tokens.PushTabulation | src/ofxFontStash.cpp:395-399 | pushing one word onto each of the five lists is appending it to the sequence of words |
| Tokenizer.TokenizeLine | src/ofxFontStash.cpp:361-409 | the inner loop appends the line's words and then its marker, in the style in force at the end of the line |
| Tokenizer.TokenizeLines | src/ofxFontStash.cpp:358-410 | the outer loop's lists and final style are those of the tokenizer specification |
| Tokenizer.Tokenize | src/ofxFontStash.cpp:343-410 | the five lists and the style at the end are those of the specification, starting from the first font, the draw colour and scale 1 (src/ofxFontStash.cpp:352-354) |
| Tokenizer.TokenizeParallel | src/ofxFontStash.cpp:395-409 | the five lists have equal length, one entry per word or marker |
| Tokenizer.TokenizeMarkers | src/ofxFontStash.cpp:403-409 | there is exactly one marker per logical line, and the word list ends with one |
| Tokenizer.TokenizeMeasured | src/ofxFontStash.cpp:391-409 | each word is measured at its own scale and font, and each marker has size (0, 0) |
| Tokenizer.TokenizeSpellsText | src/ofxFontStash.cpp:343-410 | for a text without codes, the words read in order spell the text with a space before each newline plus a final newline, and the style is unchanged |
| TokenizerProps.LineTokensShape | src/ofxFontStash.cpp:361-399 | the pieces of a line emit no marker, and each word they emit is measured in its own style |
| TokenizerProps.TextShape | src/ofxFontStash.cpp:358-410 | lines whose pieces hold no newline give one marker per line, end with a marker, and emit only measured words |
| TokenizerProps.TextSpelled | src/ofxFontStash.cpp:358-410 | the first lines of a text without codes spell those lines, each followed by a newline |
| TokenStyles.LineStyled | src/ofxFontStash.cpp:363-398 | for any pieces, codes included, the tokens of a line's first pieces are one per non-code piece, in order; each is that piece (with a space unless it is the line's last) in the style set by the codes before it, measured in that style; the style after them is the one those codes set |
| TokenStyles.SpelledWords | src/ofxFontStash.cpp:363-398 | words laid out that way read, in order, as the non-code pieces, each followed by a space unless it is the line's last |
| TokenStyles.LineSpelledWithCodes | src/ofxFontStash.cpp:363-398 | the words of a line's first pieces, codes included, spell its non-code pieces, each followed by a space unless it is the line's last piece |
| TokenStyles.TextStyled | src/ofxFontStash.cpp:358-410 | for any lines, codes included, the tokens of the first lines are each line's words, laid out as above in the style the codes before them set, followed by a marker in the style at that line's end; the token count and the final style follow |
| TokenStyles.TextSpelledWithCodes | src/ofxFontStash.cpp:358-410 | the tokens of the first lines spell, line by line, the non-code pieces, each followed by a space unless it is the line's last piece, and then "\n" |
| Tokenizer.TokenizeWithCodes | src/ofxFontStash.cpp:343-410 | for any text, codes included, the tokenizer's words spell each logical line's non-code pieces (a space after each but the line's last) followed by "\n"; each word carries the font, colour and scale the codes before it set, and each line's marker the style at that line's end |
| TokenizerCases.StyledExample | src/ofxFontStash.cpp:372-375 | "@1 Hello #FF0000World" gives exactly two tokens: the word "Hello " in font 1, the draw colour and scale 1, then the marker in the colour parsed from "FF0000World" |
| ColumnFlow.Start | src/ofxFontStash.cpp:430-437 | the pen moves down a line exactly when it is not at x = 0 and the word would cross the column or is a marker; it then returns to x = 0, `lead * scale` further down, and otherwise stays put |
| ColumnFlow.Flow | src/ofxFontStash.cpp:427-452 | the loop's final pen and draw calls are those of the flow specification; a dry run draws nothing |
| ColumnFlow.MaxReached | src/ofxFontStash.cpp:446-451 | `maxX` is never negative, never behind the pen, and is exactly the largest of 0 and the points where words end |
| ColumnFlow.PlacedInColumn | src/ofxFontStash.cpp:430-446 | a word either starts at the left edge or ends within the column and is not a marker |
| ColumnFlow.WithinColumn | src/ofxFontStash.cpp:430-451 | when no word is wider than the column, nothing reaches past it |
| ColumnFlow.NeverUp | src/ofxFontStash.cpp:430-437 | with a non-negative line step and non-negative scales the pen never moves up |
| ColumnFlow.MarkerReturns | src/ofxFontStash.cpp:404-406 | a marker of zero width leaves the pen at x = 0 |
| ColumnFlow.FormattedLinesStartLeft | src/ofxFontStash.cpp:404-437 | in tokenized text every logical line ends with the pen at the left edge |
| ColumnFlow.DrawMultiColumnFormatted | src/ofxFontStash.cpp:332-459 | without a stash or fonts the result is (0, 0) and nothing is drawn; otherwise the flow runs over the tokenized text, the draws are the flow's, and the result is the flow's `maxX` and its final height less `lineHeight * size / dpiScale - asc`, where `asc` is the ascent of the style at the end of the text when `topLeftAlign` and 0 otherwise |

## Findings

| source | as written | input that shows it | evidently intended | confidence | as-written member | corrected member |
|---|---|---|---|---|---|---|
| src/ofxFontStash.cpp:261-263 | after a wrap at whitespace, the scan resumes after the last whitespace only if the line does not start with whitespace; otherwise it resumes where the overflow was detected, so the codepoints between the last whitespace and that point are never drawn | " ab cd" in a column 5 units wide with one unit per codepoint: drawn as the one line "ab ", and "cd" is lost | resume just after the last whitespace whenever that whitespace lies beyond the line's leading whitespace, so every non-whitespace codepoint is drawn | not executed | LineBreakFinding.AsWrittenDropsCodepoints | LineBreaker.Resume |

`LineBreaker.BreakLines` and `Reflow.DrawMultiLineColumn` take the resume
rule as a parameter (`LineBreaker.Variant`). With `AsWritten` they run the
source's test and produce `LayoutOf(AsWritten, ...)`, the layout that
`LineBreakFinding.AsWrittenDropsCodepoints` shows losing "cd". With
`Corrected` they produce `LayoutOf(Corrected, ...)`, whose resume rule is
`LineBreaker.Resume`. The layout properties in `LineBreakProps` hold under
both rules, except `StepCovers` and `LayoutPreservesCount`, which hold
only under the corrected one. `LineBreakFinding.AsWrittenAgrees` shows the two
steps differ only on lines that start with whitespace, and
`LineBreakFinding.AsWrittenSameLine` shows they always emit the same line and
differ only in where they resume. `LineBreakProps.LayoutPreservesCount`
proves the corrected layout loses no codepoint other than whitespace, the
newline and the space: a line cut at whitespace may drop that whitespace.

## Left out

- Drawing itself is left out, because it is foreign calls with side
  effects only. This covers every `glPushMatrix`, `ofTranslate`,
  `fonsDrawText`, `fonsSetFont`, `fonsSetSize`, `fonsSetColor`,
  `beginBatch`/`endBatch` and `drawBatch` call. The flow returns the draw
  calls instead.
- The y offset of each drawn line in `drawMultiLineColumn` and the
  bounding box it returns are left out. The box is the union of
  `getBBox` rectangles (src/ofxFontStash.cpp:295-308), which is
  floating-point rectangle geometry over the external measurer; the
  model reports which lines are drawn.
- `getBBox`, `fonsTextBounds` and `fonsVertMetrics` are parameters (a
  width function, a size function and an ascent function) and are not
  modelled.
- Floating-point rounding is not modelled; the model uses exact reals.
- UTF-8 decoding (`ofUTF8`, `ofTextConverter`) is not modelled; the text
  is given as codepoints. `ofUnicode::isSpace` is a parameter.
- `ofSplitString` is modelled as a split that keeps empty pieces.
  `ofToInt`, `ofHexToInt` with `ofColor::fromHex`, and `ofToFloat` are
  parameters.
- `isFontCode`, `isColorCode` and `isScaleCode` are not part of this
  model's source files. They are modelled as tests of a piece's first
  codepoint (`@`, `#`, `%`).
- Tokenizer.Tokenize: the model requires every `@` code to name a loaded
  font (`Tokens.PiecesValid`), because the source indexes `fontIds`
  without a bounds check (src/ofxFontStash.cpp:367). The model also
  requires `dpiScale != 0`, because the source divides by it.
- `ofLogError` messages and the stash and renderer setup are not
  modelled. A missing stash is the `ready` flag.
- `lineHeight` is a parameter; in the source it is an object field.
- The y positions for the lines drawn by `drawMultiLineColumn` use
  `OFX_FONT_STASH_LINE_HEIGHT_MULT` and are not modelled, since no line
  is drawn.
- SearchReplace.SearchAndReplace: the source rewrites the caller's
  string in place through a reference (`std::string &s` and `s.replace`,
  src/ofxFontStash.cpp:61-65); the model returns the new string as a
  value instead. Where the substring is absent, the source's
  `replace(npos, ...)` throws; the model returns no result.
- The rest of the class is not modelled: font loading (`addFont`,
  `setup`), kerning, the batch toggles, `draw`, `drawString`,
  `drawMultiLine`, `getFontHeight` and the bounding-box helpers. These
  are I/O or thin wrappers over the rasterizer.
