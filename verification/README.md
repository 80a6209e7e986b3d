# Name analysis: local score, reply parser and override guard

This project models the decision core of the serverless function
`netlify/functions/analyze-name.js`. That function scores a Korean name. It
computes a local result of its own (`calculateLocalScore`), asks an external
language model for an analysis, parses the free-text answer line by line
(`parseGeminiResponse`), and replaces the local result with the parsed one only
when the parsed score passes a guard.

The model is written as pure functions over immutable datatypes.

| file | module | what it holds |
|---|---|---|
| `optional.dfy` | `Optional` | the `Option` type |
| `text.dfy` | `Text` | what the JavaScript primitives do: the `\s` class and `trim`, `split('\n')`, `parseInt` on digits |
| `hangul.dfy` | `Hangul` | UTF-16 length, and `charCodeAt(0)` of a `for...of` element; the Hangul syllable arithmetic of section 3.12 of the Unicode Standard |
| `local_score.dfy` | `LocalScore` | `calculateLocalScore`, with the random draw as a parameter `r` in 0..9 |
| `reply_pattern.dfy` | `ReplyPattern` | the regular expressions of the parser |
| `reply_parser.dfy` | `ReplyParser` | `parseGeminiResponse` |
| `reply_scenarios.dfy` | `ReplyScenarios` | concrete lines and replies |
| `handler.dfy` | `Handler` | the blank-name check, the choice between the two results, and the guard |

How the regular expressions are modelled:

- Each pattern is written twice: once as a declarative shape (`HeaderShape`,
  `ScoreShape`, `Capturable`), and once as a scanner (`HeaderAt`, `ScoreAt`,
  `CaptureStart`, `Group`). An if-and-only-if contract ties the two together.
- `line.match` is `Leftmost`: the first start position at which the anchored
  scanner succeeds.
- Greedy `\s*` followed by `(.+)` gives characters back when nothing else can
  follow. The group therefore starts at the last position that can start it
  (`CaptureStart`).

## Model

| member | source | states |
|---|---|---|
| Text.Run | netlify/functions/analyze-name.js:277-278 | a greedy `p*` from `i` stays in the string, covers only `p`-characters, and stops at the end or at a non-`p` character |
| Text.RunUnique | netlify/functions/analyze-name.js:277-278 | any maximal run of `p`-characters from `i` is the one `Run` measures |
| Text.Back | netlify/functions/analyze-name.js:267 | the backward scan stops at the start of the trailing white space of `s[..hi]` |
| Text.BackUnique | netlify/functions/analyze-name.js:267 | white space before `hi` that is preceded by a non-space character (or the start) is exactly what `Back` skips |
| Text.Trim | netlify/functions/analyze-name.js:260 | `trim` yields a contiguous infix with no white space at either end, and only white space lies outside it |
| Text.TrimUnique | netlify/functions/analyze-name.js:267 | any trimmed infix with only white space around it is the result of `trim` (the contract characterises `trim`) |
| Text.TrimOfBlank | netlify/functions/analyze-name.js:260 | a string of white space trims to the empty string |
| Text.TrimIdempotent | netlify/functions/analyze-name.js:267 | trimming a trimmed string changes nothing |
| Text.TrimEmptyIffBlank | netlify/functions/analyze-name.js:36 | `s.trim().length === 0` holds exactly when every character of `s` is white space |
| Text.Split | netlify/functions/analyze-name.js:265-266 | `split('\n')` yields at least one piece, no piece holds a line feed, and joining the pieces with line feeds gives back the input |
| Text.SplitPiece | netlify/functions/analyze-name.js:266 | a string without a line feed splits into itself alone |
| Text.SplitAtLineFeed | netlify/functions/analyze-name.js:266 | splitting cuts at the first line feed and carries on with the rest |
| Text.SplitJoin | netlify/functions/analyze-name.js:266 | splitting undoes joining, so pieces are kept, empty ones included |
| Text.DigitChar | netlify/functions/analyze-name.js:280 | the digit character of `d` is a digit whose value is `d` |
| Text.Decimal | netlify/functions/analyze-name.js:280 | the decimal spelling of a number is a non-empty digit string without a leading zero (except for 0 itself) |
| Text.DecimalRoundTrip | netlify/functions/analyze-name.js:280 | `parseInt` of the decimal spelling of `n` is `n` |
| Text.LeadingZeroIgnored | netlify/functions/analyze-name.js:280 | a leading zero does not change the value that `parseInt` reads |
| Hangul.Utf16Units | netlify/functions/analyze-name.js:128 | a character takes one UTF-16 code unit in the BMP and two above it |
| Hangul.Utf16Length | netlify/functions/analyze-name.js:128 | `name.length` lies between the number of characters and twice that number |
| Hangul.Utf16LengthOfChar | netlify/functions/analyze-name.js:128 | one character's `length` is its number of code units: one in the BMP, two for a surrogate pair |
| Hangul.Utf16LengthAppend | netlify/functions/analyze-name.js:128 | the `length` of a concatenation is the sum of the lengths, so `name.length` is the sum of the characters' code units |
| Hangul.Utf16LengthOfBmp | netlify/functions/analyze-name.js:128 | on BMP text, `name.length` is the number of characters |
| Hangul.FirstCodeUnit | netlify/functions/analyze-name.js:143-145 | `charCodeAt(0)` of a `for...of` element is the character itself in the BMP and its high surrogate otherwise |
| Hangul.SupplementaryIsNotSyllable | netlify/functions/analyze-name.js:145-146 | a supplementary-plane character never passes the syllable range test |
| Hangul.LIndex | netlify/functions/analyze-name.js:147 | offset div 588 is a leading-consonant index below 19 |
| Hangul.VIndex | netlify/functions/analyze-name.js:147 | the vowel index of a syllable is below 21 |
| Hangul.TIndex | netlify/functions/analyze-name.js:147 | the trailing-consonant index of a syllable is below 28 |
| Hangul.Compose | netlify/functions/analyze-name.js:145-147 | composing jamo indices gives a syllable that decomposes back to the same indices |
| Hangul.OffsetDigits | netlify/functions/analyze-name.js:147 | a syllable offset is a mixed-radix number with digits l, v and t |
| Hangul.DecomposeCompose | netlify/functions/analyze-name.js:145-147 | every syllable is the composition of its own jamo indices |
| LocalScore.LengthBase | netlify/functions/analyze-name.js:132-135 | the base is 75 exactly for length 2, 85 exactly for length 3, 80 exactly for length 4, and 70 for every other length |
| LocalScore.BaseScore | netlify/functions/analyze-name.js:128-138 | the base lies in 70..90 and exceeds the length base by 5 exactly when the Hanja string is non-blank |
| LocalScore.BlankHanjaEarnsNothing | netlify/functions/analyze-name.js:129 | a Hanja string of white space only scores like no Hanja at all |
| LocalScore.SyllableBonus | netlify/functions/analyze-name.js:145-148 | a syllable earns its leading-consonant index mod 3 (at most 2), and any other character earns nothing |
| LocalScore.SyllableBonusOfComposed | netlify/functions/analyze-name.js:145-148 | vowel and trailing consonant never change a syllable's bonus; only the leading consonant does |
| LocalScore.SyllableCount | netlify/functions/analyze-name.js:143-146 | there are never more syllables than characters |
| LocalScore.ConsonantBonus | netlify/functions/analyze-name.js:141-150 | the loop's bonus is at most 2 per syllable of the name |
| LocalScore.ConsonantBonusAppend | netlify/functions/analyze-name.js:143-150 | the bonus of a concatenation is the sum of the two bonuses (the loop is a per-character sum) |
| LocalScore.ConsonantBonusOfChar | netlify/functions/analyze-name.js:143-149 | a one-character name earns exactly that character's syllable bonus; with the append law, the bonus of any name is the sum of its characters' syllable bonuses |
| LocalScore.NoSyllableNoBonus | netlify/functions/analyze-name.js:146 | text without Hangul syllables earns no bonus |
| LocalScore.Clamp | netlify/functions/analyze-name.js:152-158 | `Math.min(hi, Math.max(lo, x))` lies in `lo..hi`, leaves `x` alone when it is already in range, and moves it to the nearer bound when it is not |
| LocalScore.Score | netlify/functions/analyze-name.js:152-158 | the local score lies in 60..100 and equals the unclamped score when that is in range |
| LocalScore.LowerClampInactive | netlify/functions/analyze-name.js:152-158 | the unclamped score is at least 65, so only the ceiling of 100 ever acts |
| LocalScore.ScoreMonotoneInDraw | netlify/functions/analyze-name.js:156 | a larger draw never lowers the score and raises it by at most the difference of the draws |
| LocalScore.GradeOfLabel | netlify/functions/analyze-name.js:191 | a label that names a grade is that grade's label |
| LocalScore.LabelRecoversGrade | netlify/functions/analyze-name.js:191 | the three labels 우수, 보통 and 개선필요 are distinct, so the label the record carries gives back the grade |
| LocalScore.GradeOf | netlify/functions/analyze-name.js:191 | 우수 exactly from 85, 보통 exactly in 70..84, 개선필요 exactly below 70 |
| LocalScore.GradeMonotone | netlify/functions/analyze-name.js:191 | a higher score never gets a worse grade |
| LocalScore.GradeBoundaries | netlify/functions/analyze-name.js:191 | the ladder changes grade at 70 and at 85 |
| LocalScore.EveryGradeReachable | netlify/functions/analyze-name.js:127-191 | each of the three grades is the local grade of some name and draw |
| LocalScore.Analyze | netlify/functions/analyze-name.js:127-201 | the record's score is the clamped score, its grade is the ladder's label (우수, 보통 or 개선필요), and every text comes from profile `score % 4`, with the items in order |
| LocalScore.AnalysisDeterminedByScore | netlify/functions/analyze-name.js:187-200 | two inputs with the same score get the same record |
| LocalScore.ProfileIndexOf | netlify/functions/analyze-name.js:160-185 | a recognised title names the profile that carries it |
| LocalScore.TitleRecoversProfileIndex | netlify/functions/analyze-name.js:160-192 | the four titles are distinct, so the title of a local result gives back the score mod 4 |
| ReplyPattern.Rank | netlify/functions/analyze-name.js:283-322 | each field has its place in the else-if chain |
| ReplyPattern.RankOfIndex | netlify/functions/analyze-name.js:283-322 | the place of the field at position `k` of the chain is `k` |
| ReplyPattern.Label | netlify/functions/analyze-name.js:283-319 | every label is at least two characters long |
| ReplyPattern.HeaderAt | netlify/functions/analyze-name.js:283 | `label\s*[:：]` anchored at `i` matches exactly when the scanner finds a colon, and the colon it reports is the one the pattern's shape has |
| ReplyPattern.NoHeaderBeyondRun | netlify/functions/analyze-name.js:283 | the colon of a header is the first non-space character after the label |
| ReplyPattern.ScoreAt | netlify/functions/analyze-name.js:277-278 | the anchored score pattern matches exactly when the scanner returns a span, and that span is the only match |
| ReplyPattern.ScoreSpanFound | netlify/functions/analyze-name.js:278 | a header followed by white space and at least one digit is a score match |
| ReplyPattern.ScoreSpanUnique | netlify/functions/analyze-name.js:278 | an anchored score match has the digits start at the first non-space character after the colon and run as far as the digits go |
| ReplyPattern.ScoreSpanIs | netlify/functions/analyze-name.js:278 | one score match is pinned down by its header: colon, start of the digits, end of the digits |
| ReplyPattern.LastLineChar | netlify/functions/analyze-name.js:284 | the scan finds the last character in a range that `.` matches, and none exists when it finds nothing |
| ReplyPattern.CaptureStart | netlify/functions/analyze-name.js:284 | where `\s*(.+)` after the colon starts its group: the last position that can start it |
| ReplyPattern.Group | netlify/functions/analyze-name.js:284 | the group `(.+)` is a non-empty infix of the line without line terminators, and it stops only at the end of the line or at a line terminator |
| ReplyPattern.TextAt | netlify/functions/analyze-name.js:284-286 | the anchored text pattern matches exactly when a header and a capturable group exist; its value is the trimmed group that starts at the last capturable position after the colon |
| ReplyPattern.Leftmost | netlify/functions/analyze-name.js:277-284 | `line.match` returns the first start position that matches, and no position before it matches |
| ReplyPattern.LeftmostFirst | netlify/functions/analyze-name.js:277-284 | a matching position with no match before it is the one `line.match` reports |
| ReplyPattern.NoHeaderWithoutFirstChar | netlify/functions/analyze-name.js:283-319 | a line without the first character of a label has no header for it |
| ReplyPattern.ScoreValue | netlify/functions/analyze-name.js:277-280 | a score is read exactly when the score pattern matches somewhere, and it is `parseInt` of the digits of a match with no match starting before it |
| ReplyPattern.HasHeader | netlify/functions/analyze-name.js:283 | the label test holds exactly when `label\s*[:：]` matches somewhere in the line |
| ReplyPattern.TextValue | netlify/functions/analyze-name.js:284-286 | a value is read exactly when the value pattern matches somewhere; it is the value of the leftmost match and has no outer white space |
| ReplyParser.FirstLabelUnique | netlify/functions/analyze-name.js:283-322 | only one field can be the first in the chain whose label matches |
| ReplyParser.FirstField | netlify/functions/analyze-name.js:283-322 | the chain picks the first field whose label matches, and picks none only when no label matches |
| ReplyParser.Classify | netlify/functions/analyze-name.js:277-322 | a line sets the score exactly when the score pattern matches; otherwise it sets the first matching label's field when that field's value pattern matches, sets nothing when it does not, and sets nothing when no label matches |
| ReplyParser.ClassifyFirstLabel | netlify/functions/analyze-name.js:283-322 | conversely, a line without a score whose first matching label yields a value sets exactly that field to that value |
| ReplyParser.Apply | netlify/functions/analyze-name.js:280-321 | a line changes at most one property of the record and leaves every other one as it was |
| ReplyParser.ApplyAllKeepsLastScore | netlify/functions/analyze-name.js:273-282 | after all lines, the score is that of the last line that set one, or the starting score if no line did |
| ReplyParser.ApplyAllKeepsLastText | netlify/functions/analyze-name.js:283-323 | after all lines, a field holds the value of the last line that set it; a field no line set keeps its starting state |
| ReplyParser.ApplyAllKeepsLastWrite | netlify/functions/analyze-name.js:271-323 | after all lines, the score and every field hold the value of the last line that set them, and the starting value where no line did |
| ReplyParser.UnmatchedLineIgnored | netlify/functions/analyze-name.js:277-322 | a line that no branch matches leaves the record unchanged |
| ReplyParser.NonBlank | netlify/functions/analyze-name.js:267-268 | the kept lines are non-empty and trimmed |
| ReplyParser.NonBlankKeepsLines | netlify/functions/analyze-name.js:267-268 | pieces that are already trimmed and non-empty are all kept, unchanged and in order |
| ReplyParser.NonBlankTrimsEach | netlify/functions/analyze-name.js:265-268 | pieces that are not blank are each kept as their trimmed form, in order, so surrounding white space and carriage returns are cut off |
| ReplyParser.NonBlankAppend | netlify/functions/analyze-name.js:267-268 | trimming and filtering work piece by piece: the lines of a concatenation are the lines of each part, in order |
| ReplyParser.Lines | netlify/functions/analyze-name.js:265-268 | the lines that are parsed are non-empty and trimmed |
| ReplyParser.LinesOfJoin | netlify/functions/analyze-name.js:265-268 | a reply written as trimmed non-empty lines joined by line feeds yields exactly those lines, in order |
| ReplyParser.SplitOfBlank | netlify/functions/analyze-name.js:265-266 | white space splits into pieces of white space |
| ReplyParser.NonBlankOfBlank | netlify/functions/analyze-name.js:267-268 | pieces of white space leave no lines |
| ReplyParser.LinesOfBlank | netlify/functions/analyze-name.js:265-268 | a reply of white space only has no lines |
| ReplyParser.LinesOfOneLine | netlify/functions/analyze-name.js:265-268 | a trimmed line without a line feed is its own and only line |
| ReplyParser.Parse | netlify/functions/analyze-name.js:254-342 | the parser returns either the `score: null` sentinel or a record whose score lies in 1..100 |
| ReplyParser.ParseIsLastWrite | netlify/functions/analyze-name.js:260-337 | the parser accepts a reply exactly when its last score line holds a value in 1..100, and the accepted record holds the last written value of every field |
| ReplyParser.ParseSentinelCases | netlify/functions/analyze-name.js:260-337 | the sentinel comes back exactly for a blank reply, a reply without a score line, or a last score outside 1..100 (0 included) |
| ReplyScenarios.NoScoreAt | netlify/functions/analyze-name.js:277 | the score pattern cannot start at a character other than the first of its label |
| ReplyScenarios.GradeLineScoreAt | netlify/functions/analyze-name.js:278 | in `등급: 점수: 85` the score pattern matches at position 4 |
| ReplyScenarios.GradeLineDigits | netlify/functions/analyze-name.js:280 | the digits of that match read as 85 |
| ReplyScenarios.ScoreInsideGradeLine | netlify/functions/analyze-name.js:277-280 | the score is found anywhere in the line, not only at its start |
| ReplyScenarios.ScoreBranchComesFirst | netlify/functions/analyze-name.js:277-286 | a line with both a grade label and a score sets the score, and the grade is lost |
| ReplyScenarios.ScoreLineShape | netlify/functions/analyze-name.js:278 | `점수: digits` matches the score pattern at 0 over the whole digit string |
| ReplyScenarios.ScoreLine | netlify/functions/analyze-name.js:277-280 | a whole-line score sets the score to the value of its digits |
| ReplyScenarios.ScoreOnlyReply | netlify/functions/analyze-name.js:265-323 | a reply that is one score line yields that one line and a record with only the score |
| ReplyScenarios.ParseScoreOnlyReply | netlify/functions/analyze-name.js:254-337 | a one-line score reply is accepted when the score is in 1..100, and otherwise the sentinel comes back |
| ReplyScenarios.ZeroScoreRejected | netlify/functions/analyze-name.js:331-336 | `점수: 0` is read, but 0 is falsy and the parser answers with the sentinel |
| ReplyScenarios.SeventyFiveDigits | netlify/functions/analyze-name.js:280 | the digits `75` read as 75 |
| ReplyScenarios.SeventyFiveParsed | netlify/functions/analyze-name.js:254-337 | the parser accepts `점수: 75` |
| ReplyScenarios.TemplateItemHeader | netlify/functions/analyze-name.js:301 | the label test of `추천물건1` matches its template line, with the colon at 5 |
| ReplyScenarios.TemplateItemCapture | netlify/functions/analyze-name.js:302 | the group of the template line starts after the one space behind the colon |
| ReplyScenarios.TemplateItemGroup | netlify/functions/analyze-name.js:302 | the group runs to the end of the line |
| ReplyScenarios.TrimmedItem | netlify/functions/analyze-name.js:303 | the item text is already trimmed |
| ReplyScenarios.TemplateItemValue | netlify/functions/analyze-name.js:302-303 | the value pattern of `추천물건1` reads `황금 반지` from its template line |
| ReplyScenarios.TemplateItemLine | netlify/functions/analyze-name.js:283-303 | the template line `추천물건1: 황금 반지` sets exactly `recommended1` |
| Handler.OverrideBoundaries | netlify/functions/analyze-name.js:88-95 | the guard rejects a missing score, 0, 75 and 101, and accepts 1, 74, 76 and 100 |
| Handler.Choose | netlify/functions/analyze-name.js:56-95 | the parsed record replaces the local one exactly when its score is present, in 1..100 and not 75; otherwise the local record is kept unchanged |
| Handler.GuardOnParsedReply | netlify/functions/analyze-name.js:88-95 | on a parsed reply the range tests of the guard are already settled, and only the sentinel 75 decides |
| Handler.SeventyFiveNeverOverrides | netlify/functions/analyze-name.js:88-95 | a reply whose last score line says 75 never replaces the local result |
| Handler.Handle | netlify/functions/analyze-name.js:34-112 | the answer is 400 exactly for a blank name; a local answer is the local record; an external answer is the parsed reply and passes the guard; and a non-blank name with a reply that passes the guard gets exactly the parsed reply |
| Handler.HandleFallsBackToLocal | netlify/functions/analyze-name.js:52-101 | with no reply, or a reply the guard rejects, the answer is exactly the local record |
| Handler.ScoreOnlyReplyDropsTexts | netlify/functions/analyze-name.js:88-110 | an accepted reply that only sets the score replaces the whole local record, so the answer has no grade, title or items |
| Handler.SeventyFiveReplyDiscarded | netlify/functions/analyze-name.js:84-110 | `점수: 75` alone is accepted by the parser, discarded by the guard, and the caller gets the local result |

## Left out

- HTTP plumbing is not modelled: the CORS headers, the `OPTIONS` and 405 answers, JSON parsing of the body, the 500 answer and the JSON encoding of the response body.
- `callGeminiAPI` and its network request, the prompt text, the API key and `console` logging are not modelled. The reply is a parameter of `Handle`. `None` stands for "no key configured" and for "the call threw".
- `Math.random()` is not modelled. The draw `Math.floor(Math.random() * 10)` is the parameter `r`, with 0 <= r <= 9.
- A name or Hanja value that is not a string is not modelled. A missing Hanja value is taken as `""`, which behaves like the default `hanja = ''`.
- Unpaired surrogates in a name are not modelled, because Dafny strings hold Unicode scalar values. `Utf16Length` and `FirstCodeUnit` model surrogate pairs exactly.
- ReplyParser.Parse: the parser's one sentinel `{ score: null }` (lines 262, 336 and 340) and the empty starting record `{}` (line 271) are the same value, `Reply(None, map[])`. A `null` score and a missing score are not told apart, because the guard needs only "no score".
- ReplyPattern.ScoreValue: `parseInt` is modelled as exact integer arithmetic. JavaScript's rounding of digit strings above 2^53 is not modelled. Such values are far above 100, so the accept/reject decision and the guard are unaffected.
- The `try`/`catch` around the parser is not modelled. On a string input, none of the operations the parser uses can throw.
- ReplyPattern.Label: states only the length of the labels. The labels themselves are the literal strings of the chain.
