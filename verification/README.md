# Thai official-document typesetting, modelled in Dafny

This project models the typesetting core of a web application that produces
Thai government documents as PDF pages. It covers three parts:

- The four document builders (`ThaiDocument` classes): the external letter,
  the news release, the public-relations statement and the internal
  memorandum.
- The few pure string transforms inside three of the page components.

Each `add*` step of a builder becomes a pure function. It maps (form fields,
starting `y`) to a list of draw instructions and the next `y`. These
instructions stand for jsPDF's `text`, `addImage`, `line` and `addPage` calls.
Coordinates are exact `real`s, with `cmToPt(x) = x * 28.346`.

Three foreign services become parameters:

- The font's text-width measure (`getTextWidth`) is a function
  `measure: string -> real`.
- The word segmenter (`Intl.Segmenter`) is a list of segments that
  concatenate to the text.
- jsPDF's `splitTextToSize` is a function `wrap: string -> seq<string>`.

Form data is a map from field names to strings. A missing key and the empty
string both stand for a JavaScript falsy field.

Modules:

- `Strings`: the JavaScript string operations the core relies on: `trim`,
  `split` on one character, `indexOf`/`includes`, `filter`, and the
  regex replacements `/[\t ]+/g` and `/\s+/g`.
- `Layout`: page geometry and draw instructions. It also defines "stacked"
  output: every drawn `y` lies between the start and the returned `y`, top to
  bottom.
- `LineBreaking`: the greedy line breaker shared by the three builders that
  wrap text. It is one generic definition over tokens and a joiner.
- `Justification`: spreading a line's words to fill the measure.
- `Whitespace`: `replace(/\n/g, ' ').replace(/\s+/g, ' ').trim()`.
- `Numerals`: Arabic to Thai digits.
- `Paragraphs`: `split(/\n\s*\n/).filter(p => p.trim())`.
- `ExternalDocs`, `NewsRelease`, `PublicRelations`, `InternalDocs`: the four
  builders.
- `ExternalDocsPage`, `NewsReleasePage`, `InternalDocsPage`: the page
  transforms.

Where a comment disagrees with the code, the model follows the code. Some
facts about the code that a reader might not expect:

- The external letter's `addContent` replaces every line break by a space
  before breaking lines. The whole content is therefore one paragraph with one
  indented first line.
- No builder checks the width it breaks lines against. With a width of zero or
  less the greedy rule places one token per line.
- The news release's `addHeaderInfo` moves down by `4.5` points, although its
  comment says 4.5 cm.
- In the external letter, `garudaBase64` is never defined, so `addImage`
  always throws and `addGaruda` returns 8. `generate` then overwrites that
  result with `addHeaderInfo`'s own `y`. Whether the emblem is drawn is a
  parameter of the model; the text below it is placed the same either way.

## Model

| member | source | states |
|---|---|---|
| Strings.Trim | src/components/documents/ExternalDocs.js:122 | `trim()`: the result has no JavaScript white space at either end; it is empty exactly when the input is all white space; trimmed input is returned unchanged |
| Strings.TrimRemoveIf | src/app/documents/externalDocs/page.tsx:47 | deleting white-space characters commutes with trimming: trimming loses only white space at the two ends |
| Strings.CollapseRuns | src/app/documents/externalDocs/page.tsx:46 | `replace(/[\t ]+/g, ' ')`, for a class that holds the space: the result is empty exactly when the input is, and it starts with a space exactly where the input starts with a class character. CollapseRunsAround and CollapseRunsAppend give the run-by-run behaviour |
| Strings.CollapseRunsAppend | src/app/documents/externalDocs/page.tsx:46 | the replacement works run by run: where the two parts do not both touch the class at the seam, the result for the joined text is the two results joined |
| Strings.CollapseRunsAround | src/app/documents/externalDocs/page.tsx:46 | a non-empty run of class characters between two characters outside the class becomes exactly one space, and the text on either side is handled on its own |
| Strings.CollapseRunsSpaces | src/app/documents/externalDocs/page.tsx:46 | every class character left in the result is a plain space |
| Strings.CollapseRunsNoAdjacent | src/app/documents/externalDocs/page.tsx:46 | after the replacement no two adjacent characters both belong to the class |
| Strings.CollapseRunsKeepsOthers | src/app/documents/externalDocs/page.tsx:46 | the replacement keeps every character outside the class, in order: deleting the class from the result or from the input gives the same text |
| Strings.CollapseRunsFixed | src/app/documents/externalDocs/page.tsx:46 | text with no tab and no two spaces in a row is left unchanged by the replacement |
| Strings.RemoveIf | src/components/documents/InternalDocs.js:137 | `filter(p => !pred(p))`: no more elements than the input, and none of them satisfies the predicate; the partner lemmas show it distributes over concatenation |
| Strings.ConcatChars | src/app/documents/InternalDocs/page.tsx:105-139 | `s.split('').join('')` gives back `s` |
| Strings.IndexOfChar | src/app/documents/newsreleasebook/page.tsx:79 | the first position of a character, or none when it does not occur |
| Strings.SplitOnJoin | src/app/documents/newsreleasebook/page.tsx:79 | joining the pieces of `split('\n')` with `'\n'` gives the text back |
| Strings.SplitOnLacks | src/app/documents/newsreleasebook/page.tsx:79 | no piece of `split('\n')` contains the separator |
| Strings.IndexOf | src/app/documents/newsreleasebook/page.tsx:75-77 | the first position where a pattern occurs; none exactly when it occurs nowhere |
| Whitespace.ReplaceNewlines | src/components/documents/ExternalDocs.js:120 | `replace(/\n/g, ' ')`: same length, every line break becomes a space and every other character is kept in place |
| Whitespace.ReplaceNewlinesVisible | src/components/documents/ExternalDocs.js:120 | replacing line breaks changes no visible character |
| Whitespace.Normalize | src/components/documents/ExternalDocs.js:119-122 | the normalised content is trimmed and single-spaced (only single spaces are left between visible characters), and it keeps every visible character of the input in order. NormalizeWords gives the result exactly |
| Whitespace.Words | src/components/documents/ExternalDocs.js:119-122 | the maximal runs of visible characters, in order: each is non-empty and visible, and there are none exactly when the text is all white space |
| Whitespace.NormalizeWords | src/components/documents/ExternalDocs.js:119-122 | the normalised content is exactly the visible runs of the input joined by single spaces |
| Whitespace.NormalizeAround | src/components/documents/ExternalDocs.js:119-122 | a white-space run of any length between two visible characters becomes exactly one space |
| Whitespace.NormalizeFixed | src/components/documents/ExternalDocs.js:119-122 | trimmed, single-spaced text is its own normal form |
| Whitespace.NormalizeIdempotent | src/components/documents/Newsreleasebook.js:104 | normalising twice is normalising once |
| Numerals.ToThaiDigit | src/components/documents/InternalDocs.js:65-66 | the Thai digit (U+0E50..U+0E59) for an ASCII digit has the same value |
| Numerals.ToAsciiDigit | src/components/documents/InternalDocs.js:65-66 | the inverse digit map: the ASCII digit has the Thai digit's value |
| Numerals.ToThaiDigits | src/components/documents/InternalDocs.js:64-67 | `convertToThaiNumber`: same length; each ASCII digit becomes the Thai digit of the same value; every other character is unchanged |
| Numerals.ToAsciiDigits | src/components/documents/InternalDocs.js:64-67 | the reverse map over a string, the partner of the conversion: Thai digits back to ASCII, everything else unchanged |
| Numerals.ToThaiDigitsIdempotent | src/components/documents/InternalDocs.js:66 | converted text has no ASCII digit left, so converting again changes nothing |
| Numerals.ThaiThenAscii | src/components/documents/InternalDocs.js:64-67 | on text without Thai digits, converting to Thai digits and back is the identity |
| Numerals.AsciiThenThai | src/components/documents/InternalDocs.js:64-67 | on text without ASCII digits, converting to ASCII digits and back is the identity |
| Numerals.ThaiDigitRoundTrip | src/components/documents/InternalDocs.js:65 | the digit table is a bijection between the two digit sets |
| Numerals.ToThaiDigitsAppend | src/components/documents/InternalDocs.js:66 | the conversion works character by character, so it distributes over concatenation |
| Numerals.ConvertDigitRunsWhole | src/components/documents/InternalDocs.js:75 | `replace(/\d+/g, convertToThaiNumber)`, converting each maximal digit run, equals converting the whole string |
| Numerals.NumeralField | src/components/documents/InternalDocs.js:75 | a field is the placeholder when empty and its digit-converted text otherwise |
| Numerals.ExampleYear | src/components/documents/InternalDocs.js:66 | "2569" becomes "๒๕๖๙" |
| Numerals.ExampleDocumentNumber | src/components/documents/InternalDocs.js:80 | the digit runs of "12/69" become "๑๒/๖๙", with the slash kept |
| LineBreaking.BreakLines | src/components/documents/ExternalDocs.js:136-162 | the greedy breaker. The lines' words, in order, are exactly the tokens. There are no lines exactly when there are no tokens. Each line's text is its words joined by the joiner. Only line 0 is flagged first. A line of two or more tokens fits its allowed width, which is `maxWidth - indent` on the first line and `maxWidth` on later lines. Adding the next line's first token to any line would overflow that line's allowed width |
| LineBreaking.Fill | src/components/documents/Newsreleasebook.js:121-133 | the loop from a partial line: the lines it emits satisfy the greedy rule, with an oversized token placed alone |
| LineBreaking.EmitLine | src/components/documents/Publicrelationsbook.js:198-206 | pushing a full line and starting the next with the overflowing token keeps the greedy invariant |
| LineBreaking.LinesJoinBack | src/components/documents/Newsreleasebook.js:122-138 | joining the line texts with the joiner equals joining all tokens with it |
| LineBreaking.FlattenIsConcat | src/components/documents/Publicrelationsbook.js:186-221 | the lines' word lists, concatenated, are all the segments in order |
| LineBreaking.ExampleThirtyCharacters | src/components/documents/ExternalDocs.js:138-162 | with 10 units per character, width 100 and indent 25, 30 characters break into lines of 7, 10, 10 and 3 |
| LineBreaking.FillUniform | src/components/documents/ExternalDocs.js:138-162 | under a uniform measure, line lengths are fixed-size chunks: the first chunk holds what fits beside the indent, later chunks hold 10 |
| Justification.WordPositionsClosedForm | src/components/documents/Publicrelationsbook.js:240-246 | word k is drawn at `x + (widths of words before k) + k * gap` |
| Justification.JustifiedLineFills | src/components/documents/Publicrelationsbook.js:236-246 | when the line's width is the sum of its words' widths, the last word of a justified line ends exactly at `x + available` |
| Justification.ExampleThreeWords | src/components/documents/Publicrelationsbook.js:236-246 | words of width 20 on a 100-wide non-first line are drawn at 0, 40 and 80 |
| Paragraphs.MatchEnd | src/components/documents/InternalDocs.js:137 | where `/\n\s*\n/` matches from a position, the match is two or more white-space characters starting and ending with a line break, and, as the greedy `\s*` makes it, it ends after the last line break of the white-space run: no line break after it is reachable over white space |
| Paragraphs.FirstMatch | src/components/documents/InternalDocs.js:137 | the leftmost match, with no match starting earlier |
| Paragraphs.SplitWeave | src/components/documents/InternalDocs.js:137 | putting the matched separators back between the pieces of `split(/\n\s*\n/)` gives the text back |
| Paragraphs.SeparatorsMatch | src/components/documents/InternalDocs.js:137 | every separator removed by the split is a match of the pattern |
| Paragraphs.SplitPiecesHaveNoGap | src/components/documents/InternalDocs.js:137 | no piece still contains a paragraph break: a line break, then white space only, then another line break |
| Paragraphs.ParagraphsOf | src/components/documents/InternalDocs.js:137 | after `filter(p => p.trim())`, no paragraph is blank, and the paragraphs together hold every visible character of the text, in order: nothing but white space is lost |
| Paragraphs.SplitKeepsVisible | src/components/documents/InternalDocs.js:137 | the pieces of `split(/\n\s*\n/)`, concatenated, hold every visible character of the text in order, since the removed separators are white space |
| Paragraphs.DropBlankKeepsVisible | src/components/documents/InternalDocs.js:137 | dropping the blank pieces loses no visible character |
| Paragraphs.SingleParagraph | src/components/documents/InternalDocs.js:137 | text with no paragraph break and some visible character is one paragraph, unchanged |
| Paragraphs.ExampleTwoParagraphs | src/components/documents/InternalDocs.js:137 | "a\n \nb" splits into "a" and "b" |
| Paragraphs.ExampleLongGap | src/components/documents/InternalDocs.js:137 | "a\n\n\nb" also gives "a" and "b": the three line breaks are one separator, so the second paragraph does not start with a line break |
| ExternalDocs.AddHeaderInfo | src/components/documents/ExternalDocs.js:50-70 | the number line is at the left margin and reads "ที่ " followed by the number, or "ที่ _________" when it is missing. The department is right-aligned at the right margin, "ส่วนราชการ" when missing. Both are drawn at `top + 3cm + 8`, and the result is 40 lower |
| ExternalDocs.AddDocumentInfo | src/components/documents/ExternalDocs.js:72-108 | `3 + [reference] + [attachment]` rows, 20 apart, all left-aligned. The date starts at the page centre and the other rows at the left margin. Subject and recipient fall back to "_________". A given reference is drawn as "อ้างถึง " and the reference, on the fourth row. A given attachment is drawn as "สิ่งที่ส่งมาด้วย " and the attachment, on the last row. The result is `startY + 20·rows + 10` |
| ExternalDocs.BreakCharacters | src/components/documents/ExternalDocs.js:138-162 | character-level greedy breaking. The lines spell the normalised content. Every line of two or more characters fits its allowed width. Each non-final line would overflow if the next character were added. Only line 0 is flagged first |
| ExternalDocs.CharacterLines | src/components/documents/ExternalDocs.js:149-156 | with single characters as tokens, a line's text has one character per token, and the next line begins with the overflowing character |
| ExternalDocs.AddContent | src/components/documents/ExternalDocs.js:115-176 | empty content draws nothing and returns `startY`. Otherwise line i is drawn at `startY + 20i`, with the first line at `left + 2.5cm` and the others at `left`, and the result is `startY + 20·lines + 10` |
| ExternalDocs.AddSignature | src/components/documents/ExternalDocs.js:178-191 | three centred rows at +20, +60 and +80: "ขอแสดงความนับถือ", the name in parentheses (falling back to "_________") and the position (falling back to "ตำแหน่ง"). The result is `startY + 100` |
| ExternalDocs.AddContactInfo | src/components/documents/ExternalDocs.js:193-204 | three left-aligned rows at the left margin, 20 apart: the department, or "หน่วยงาน" when missing; then "โทร. " and "โทรสาร " followed by the value or "_________" |
| ExternalDocs.Generate | src/components/documents/ExternalDocs.js:206-229 | the emblem, if drawn, comes first. After it, the body is the same whether or not the emblem loaded, and it begins with the header |
| NewsRelease.Tokens | src/components/documents/Newsreleasebook.js:119 | `match` of Thai runs or else non-space runs: tokens are non-empty and free of white space, and a token that starts with a Thai character is all Thai |
| NewsRelease.TokensKeepVisible | src/components/documents/Newsreleasebook.js:119 | the tokens, concatenated, are exactly the visible characters of the text |
| NewsRelease.TokensJoinBack | src/components/documents/Newsreleasebook.js:119-138 | on normalised text with no Thai run directly followed by a non-Thai visible character, joining the tokens with spaces gives the text back |
| NewsRelease.JoinSpacesVisible | src/components/documents/Newsreleasebook.js:122 | joining tokens with spaces adds nothing visible |
| NewsRelease.ExampleThaiSeam | src/components/documents/Newsreleasebook.js:119-122 | "พ.ศ." becomes the tokens "พ" and ".ศ.", drawn as "พ .ศ.": a space is put in where the text had none |
| NewsRelease.GarudaY | src/components/documents/Newsreleasebook.js:28-48 | `addGaruda` returns `top + 3cm + 10`, or `top + 10` when the image fails |
| NewsRelease.NumberLine | src/components/documents/Newsreleasebook.js:79-94 | "ฉบับที่ " and the number when one is given; otherwise the dotted line, followed by "(department)" only when a department is present |
| NewsRelease.AddHeaderInfo | src/components/documents/Newsreleasebook.js:51-98 | three lines, each drawn left-aligned from half its width left of the inner area's centre, so centred in it, at `startY + 4.5 + 20i`, with the department and subject fallbacks; the result is `startY + 4.5 + 60` |
| NewsRelease.ContentLines | src/components/documents/Newsreleasebook.js:104-138 | the space-joined greedy breaking of the normalised content: the lines, joined with spaces, equal the tokens joined with spaces, and every line of two or more tokens fits its allowed width |
| NewsRelease.AddContent | src/components/documents/Newsreleasebook.js:100-148 | empty content returns `startY`. Otherwise the lines start 31.2 lower, 26 apart, with the first indented, and the result is `startY + 31.2 + 26·(n−1) + 31.2 + 10` for n ≥ 1 lines |
| NewsRelease.AddSignature | src/components/documents/Newsreleasebook.js:150-183 | all three rows are left-aligned. The signature's first character, centred through its x, is followed by the rest. The date 24 lower is centred under the whole signature, and the result is `startY + 48` |
| NewsRelease.AddContactInfo | src/components/documents/Newsreleasebook.js:188-217 | nothing drawn, and `startY` returned, when all five contact fields are empty; otherwise one row each for person and department, and `startY + 20 + 20·rows` |
| NewsRelease.Generate | src/components/documents/Newsreleasebook.js:219-238 | the emblem, when loaded, comes first; the body starts at `addGaruda`'s result |
| NewsRelease.GarudaPushesDown | src/components/documents/Newsreleasebook.js:44-47 | with the emblem loaded, everything after it is the no-emblem document moved down by exactly 3 cm |
| PublicRelations.AddDocumentInfo | src/components/documents/Publicrelationsbook.js:101-149 | centred title, subject and "(ฉบับที่ …)" lines at +20, +42 and +62, the last only when `to` is present. A 4 cm rule starting `4cm/2.1` left of the page centre is drawn 34 above the result. The result is `startY + 102 + 20·[to]` |
| PublicRelations.AddContent | src/components/documents/Publicrelationsbook.js:174-252 | empty content returns `startY + 4`. Otherwise the drawn texts, concatenated, are exactly the content, and the result is `startY + 4 + 20·lines + 5` |
| PublicRelations.RowsAreLineRows | src/components/documents/Publicrelationsbook.js:226-249 | the rows are the lines' drawings in order. Line i is drawn at `y + 20i`, justified unless it is the last line, which is drawn whole |
| PublicRelations.AddContentDrawsRows | src/components/documents/Publicrelationsbook.js:174-252 | non-empty content is drawn as the rows of its greedy lines, starting at `startY + 4` |
| PublicRelations.AddContentJustifiedLine | src/components/documents/Publicrelationsbook.js:236-246 | every line but the last is drawn word by word. Its words are at the justified positions from the line's own x, on the row `startY + 4 + 20i` |
| PublicRelations.AddContentLastLine | src/components/documents/Publicrelationsbook.js:231-234 | the last draw is the last line's whole text at its own x, on the row `startY + 4 + 20(n−1)`, left-aligned and not stretched |
| PublicRelations.AddContentFirstLine | src/components/documents/Publicrelationsbook.js:226-233 | the first drawn word is at `left + 2.5cm`, on the first row |
| PublicRelations.LineDrawsKeepText | src/components/documents/Publicrelationsbook.js:231-246 | a last line drawn whole, or a justified line drawn word by word, spells the line's text |
| PublicRelations.RowsKeepText | src/components/documents/Publicrelationsbook.js:226-249 | all rows together spell the lines' texts in order |
| PublicRelations.JustifiedGapNonNegative | src/components/documents/Publicrelationsbook.js:236-238 | on a line of two or more words the greedy breaker leaves room, so the justification gap is never negative |
| PublicRelations.JustifiedLineEndsAtMargin | src/components/documents/Publicrelationsbook.js:236-246 | a justified non-first line's last word ends exactly at the right margin |
| PublicRelations.AddSignature | src/components/documents/Publicrelationsbook.js:254-284 | rows at +20, +50 and +70; the date at the date column and the reference at the left margin are left-aligned, and the first row is the left-aligned attachment or the centred default issuer, falling back to "กองทัพบก", "วัน เดือน ปี" and "ส่วนราชการเจ้าของเรื่อง"; the result is `startY + 110` |
| PublicRelations.Generate | src/components/documents/Publicrelationsbook.js:73-90 | the emblem, when loaded, comes first; the body begins with the document information at `top + 3cm + 8` |
| InternalDocs.GarudaDraws | src/components/documents/InternalDocs.js:24-62 | when the image loads: a 2 cm emblem at the top-left margin and the title "บันทึกข้อความ", left-aligned from half its width left of the page centre at `top + 2cm/1.4`; nothing otherwise |
| InternalDocs.GarudaY | src/components/documents/InternalDocs.js:24-61 | `addGaruda` returns 20 points below the 2 cm emblem when the image loads, and `top + 1.5cm + 40` when it fails. Either way the result lies below the emblem, the title and the top margin |
| InternalDocs.AddHeader | src/components/documents/InternalDocs.js:69-90 | department and number with digits converted, falling back to "______". All three are left-aligned. The date is not converted and starts half its width left of the page centre. The result is two rows of 0.8 cm lower |
| InternalDocs.AddSubjectAndReference | src/components/documents/InternalDocs.js:91-119 | `2 + [reference] + [attachment]` rows of 0.8 cm at the left margin, with digits converted and "______" fallbacks; the result is `startY + 0.8cm·rows` |
| InternalDocs.PlaceLine | src/components/documents/InternalDocs.js:148-161 | a page is added and `y` reset to the top margin exactly when `y + 0.8cm` passes the bottom limit. Nothing drawn before is changed. The line is drawn last, at its x, 0.8 cm above the returned `y`, which is at most the bottom limit |
| InternalDocs.LineFlows | src/components/documents/InternalDocs.js:148-161 | placing a line keeps the draws flowing: on one page each line is at least 0.8 cm below the one before, and after a page break the next line is at the top margin |
| InternalDocs.LinesPlaced | src/components/documents/InternalDocs.js:147-162 | a paragraph's lines are placed in order, the first at `left + 2.5cm` and the rest at `left` |
| InternalDocs.LinesHeight | src/components/documents/InternalDocs.js:147-162 | without a page break, `y` advances one step per line; when the lines fit, no page is added |
| InternalDocs.ParagraphsPlaced | src/components/documents/InternalDocs.js:139-168 | a section's paragraphs are placed one after another, each with its own indented first line |
| InternalDocs.ParagraphsHeightOf | src/components/documents/InternalDocs.js:139-168 | without a page break, a section takes its lines plus one 0.8 cm gap between paragraphs, none after the last |
| InternalDocs.SectionsPlaced | src/components/documents/InternalDocs.js:135-174 | the three sections are placed in order |
| InternalDocs.SectionsHeightOf | src/components/documents/InternalDocs.js:135-174 | without a page break, 1.6 cm separates sections, none after the last |
| InternalDocs.SectionsStayOnPage | src/components/documents/InternalDocs.js:148-152 | every line of every section is drawn above the bottom limit |
| InternalDocs.SectionsFlow | src/components/documents/InternalDocs.js:135-174 | the same flowing order holds across paragraphs and sections, so no two lines on one page overprint |
| InternalDocs.PlaceContent | src/components/documents/InternalDocs.js:120-177 | every line lies above the bottom limit, and on one page each line is at least 0.8 cm below the one before. The placed texts are the wrapped paragraphs in order. With no page break, `y` ends at the start plus the total height, and content that fits adds no page |
| InternalDocs.PlaceContentFirstLine | src/components/documents/InternalDocs.js:120-161 | when two steps fit above the bottom limit, the first line is at `left + 2.5cm`, 0.8 cm below the start |
| InternalDocs.AddContent | src/components/documents/InternalDocs.js:120-177 | the same, for the reason, purpose and conclusion fields, split into non-blank paragraphs, wrapped, with digits converted and "______" for a missing section |
| InternalDocs.AddSignature | src/components/documents/InternalDocs.js:178-197 | name and position, converted or falling back to "(________________)" and "(ตำแหน่ง)", left-aligned from half their width left of a point 2 cm right of the page centre at +3.2 cm and +4.0 cm; the result is `startY + 4.0cm` |
| InternalDocs.Body | src/components/documents/InternalDocs.js:198-205 | the header comes first, then the subject rows, the content and the signature, in that order |
| InternalDocs.Generate | src/components/documents/InternalDocs.js:198-205 | the emblem draws, then the body starting at `addGaruda`'s result |
| ExternalDocsPage.CleanContent | src/app/documents/externalDocs/page.tsx:43-47 | the cleaned content has no tab, no two adjacent spaces and no white space at either end; line breaks and every other character are kept in order. CleanContentAround and CleanContentInner give the run-by-run behaviour |
| ExternalDocsPage.CleanContentAround | src/app/documents/externalDocs/page.tsx:46-47 | a run of tabs and spaces between two visible characters becomes exactly one space |
| ExternalDocsPage.CleanContentInner | src/app/documents/externalDocs/page.tsx:46-47 | on text that starts and ends with a visible character, cleaning is exactly the run-collapsing replacement |
| ExternalDocsPage.CleanContentIdempotent | src/app/documents/externalDocs/page.tsx:43-47 | cleaning is idempotent |
| ExternalDocsPage.HandleChange | src/app/documents/externalDocs/page.tsx:37-53 | only the named field changes. It takes the cleaned value for `content` and the value as typed otherwise |
| NewsReleasePage.BreakBefore | src/app/documents/newsreleasebook/page.tsx:75-77 | content that already has a line break before the keyword is kept, and so is content without the keyword. Otherwise one line break goes in front of the first occurrence, and deleting it gives the content back. Afterwards the keyword always follows a line break |
| NewsReleasePage.BreakBeforeIdempotent | src/app/documents/newsreleasebook/page.tsx:75-77 | inserting the break twice is inserting it once |
| NewsReleasePage.ContentLines | src/app/documents/newsreleasebook/page.tsx:72-80 | no content gives no lines. Otherwise joining the lines with line breaks gives the content with the break inserted, and no line holds a break |
| NewsReleasePage.KeywordStartsALine | src/app/documents/newsreleasebook/page.tsx:75-79 | when the content mentions the closing formula, some preview line starts with it |
| NewsReleasePage.LineAfterBreak | src/app/documents/newsreleasebook/page.tsx:79 | a break-free word right after a line break starts a line of `split('\n')` |
| NewsReleasePage.LineStyle | src/app/documents/newsreleasebook/page.tsx:238-241 | a line is right-aligned exactly when its trim equals the closing formula; every other line is justified with a 2.5 cm indent |
| InternalDocsPage.StripPrefix | src/app/documents/InternalDocs/page.tsx:609 | `replace(/^prefix/, '')` removes a leading prefix and is the identity on text that does not start with it |
| InternalDocsPage.Edit | src/app/documents/InternalDocs/page.tsx:386-482 | an edit stores the caption followed by the typed value, and what is shown is exactly the typed value. Every other field is unchanged, including the other two parts of the nested content |
| InternalDocsPage.StoredDetermines | src/app/documents/InternalDocs/page.tsx:16-29 | a memorandum is determined by the text of its fields |
| InternalDocsPage.EditShown | src/app/documents/InternalDocs/page.tsx:386-390 | typing back what a captioned field shows leaves the memorandum unchanged |
| InternalDocsPage.EditTwice | src/app/documents/InternalDocs/page.tsx:403-407 | the last edit of a field wins |
| InternalDocsPage.EditsCommute | src/app/documents/InternalDocs/page.tsx:438-484 | edits of different fields, including different parts of the content, commute |
| InternalDocsPage.Exported | src/app/documents/InternalDocs/page.tsx:105-139 | each field is exported unchanged by `split('').join('')` |

## Left out

- `addGaruda` in all four builders: fetching, decoding and drawing the image
  is browser I/O. Whether the image loaded is a parameter. The model keeps the
  two `y` values the method can return and the draws it makes.
- `Publicrelationsbook.addHeader` (src/components/documents/Publicrelationsbook.js:151-172):
  it is never called, and it formats dates with `new Date` and `date-fns`.
  `Publicrelationsbook.addHeaderInfo` only returns a constant, which the model
  uses as the body's starting `y`.
- Fonts, font sizes and jsPDF's own text measuring and wrapping. They are the
  `measure` and `wrap` parameters. Justification's exact fill holds only when
  a line's width is the sum of its words' widths, which the model takes as a
  hypothesis.
- `Intl.Segmenter`: the segments are an input that concatenates to the
  content.
- Floating point: coordinates are exact rationals. The model makes no claim
  about the IEEE values the JavaScript produces.
- UTF-16: strings are sequences of code points. No Thai character here is a
  surrogate pair.
- Falsy values other than a missing or empty string (`0`, `null`) are not
  modelled.
- The internal-memorandum page's `generatePdfFromData` fallback, html2canvas
  capture, React state and effects, the chat API client, authentication and
  the documents index page: rendering side effects and plumbing, with no
  typesetting logic.
- InternalDocs.PlaceContent: the exact final `y` is stated only when no page
  break happens. After a break nothing is promised about `y`, neither the
  value the code reaches on the new page nor a bound on it.
- InternalDocs.AddContent: the same as PlaceContent, since it places its
  sections through PlaceContent: the exact final `y` is stated only when no
  page break happens.
- Styling of the news-release preview: the padding, margins, indents and line
  height in its JSX class names and styles are not modelled, including the
  closing line's `pr-[6.8cm]` (src/app/documents/newsreleasebook/page.tsx:238).
  NewsReleasePage.LineStyle keeps only which lines are right-aligned.
- LineBreaking.BreakLines: the breaker does not model a tab or any other
  character whose width the font reports as zero specially; every token's
  width is whatever `measure` says.
