# Commit message classifier: a Dafny model of the classification engine

This project models the classification engine of the Commit Message Classifier
backend (`backend/main.py`). The engine takes a raw commit message and returns a
commit type, an optional scope, a description, a confidence and an ordered list
of improvement suggestions. A message that is empty after stripping is rejected.

The model follows the engine step by step:

- **Type table** (`CommitTypes`): the eleven types `feat`, `fix`, `docs`, `style`,
  `refactor`, `perf`, `test`, `build`, `ci`, `chore` and `revert`, in declaration
  order, with their keys, descriptions and keyword lists.
- **Conventional-format matcher** (`Patterns`): each type's regular expression
  `^<key>(\([^)]+\))?:\s*.+`, matched case-insensitively. Also `extract_scope`
  (the first `(...)` group anywhere in the message) and the `re.sub` that cuts the
  header off to leave the description. All three are hand-coded as string
  predicates.
- **Keyword scorer** (`Scoring`): `calculate_confidence` and the fallback loop of
  `classify_commit`. Confidence is kept in integer hundredths (50, 70, 80, 90, 95).
- **Classifier** (`Classifier`): `classify_commit` itself.
- **Suggestion generator** (`Suggestions`): `generate_suggestions`, its five rules
  in their fixed order.
- **Routes** (`Api`): the per-message response and the per-item loop of the batch
  route. Each batch item is classified on its own; a failing item becomes an error
  entry.
- **Worked samples** (`Examples`): sample messages and the edge cases of the regular
  expressions.

Python's `str.strip`, `str.split` and the regex class `\s` all use one whitespace
class; `Text.IsSpace` models it. Lowercasing and `re.IGNORECASE` are modelled on
ASCII letters.

Behaviour of the code worth knowing:

- The colon after the type need not be followed by a space (`feat:x` matches).
- The scope is the first parenthesised group anywhere in the message, so
  `feat: add (x)` has scope `x`.
- The description is cut at the first colon in the message, even when that colon
  is inside the scope: `feat(a:b): x` has description `b): x`.
- The capitalisation rule fires on an uppercase first character of the
  description and on nothing else.
- The imperative-mood rule fires when the description's first word, lowered,
  starts with one of six past-tense markers: `added`, `fixed`, `updated`,
  `changed`, `removed`, `created`.
- Suggestions are modelled as `Suggestion` values rather than strings;
  `Suggestions.Render` gives the exact text the endpoint returns for each.
- The format suggestion tests the raw, unstripped message. A conventional message
  sent with leading whitespace therefore still gets it. On the raw message `.+`
  can consume trailing whitespace: `feat: ` matches its pattern, although its
  stripped form `feat:` does not.

## Model

| member | source | states |
|---|---|---|
| Text.Strip | backend/main.py:120 | `strip()` result: empty iff the message is all whitespace; otherwise it starts and ends with non-whitespace; it is the message with an all-whitespace prefix and suffix removed |
| Text.StripUnique | backend/main.py:120 | any infix of the message that has only whitespace cut from both ends and neither begins nor ends with whitespace is the `strip()` result |
| Text.StripAt | backend/main.py:120 | with only whitespace before position i and from i + n on, and non-whitespace at both ends of the n characters between, `strip()` returns exactly those n characters |
| Text.StripIdempotent | backend/main.py:120 | stripping a stripped message changes nothing |
| Text.StripKeeps | backend/main.py:120 | a message that neither begins nor ends with whitespace is unchanged by `strip()` |
| Text.LeadingSpace | backend/main.py:129 | the `\s*` run at the start: all whitespace, and followed by a non-whitespace character or the end |
| Text.IndexOf | backend/main.py:129 | the first occurrence of a character: none before it, the character at it, or the length when it is absent |
| Text.IsSpace | backend/main.py:120 | the whitespace class of `str.isspace`, shared by `strip()`, `split()` and the regex `\s`: characters 9-13 and 28-32, U+0085, U+00A0, U+1680, U+2000-U+200A, U+2028, U+2029, U+202F, U+205F, U+3000 |
| Text.LowerChar | backend/main.py:102 | `lower()` on one character, ASCII only: an uppercase ASCII letter becomes a lowercase one, every other character is unchanged |
| Text.IsUpper | backend/main.py:184 | `desc[0].isupper()`, ASCII only: the character is a letter `A` to `Z` |
| Text.StartsWith | backend/main.py:179 | `s.startswith(p)`: `p` is no longer than `s` and is its prefix |
| Text.Lower | backend/main.py:102 | `lower()` on ASCII: same length, no uppercase letter left, every non-uppercase character unchanged |
| Text.Contains | backend/main.py:111 | `kw in s`: the empty keyword is always in; a keyword longer than the message never is |
| Text.ContainsIff | backend/main.py:111 | `kw in message_lower` holds iff the keyword occurs at some position of the lowercased message |
| CommitTypes.Index | backend/main.py:37-93 | every type has a position in the declaration order, and the table holds that type there |
| CommitTypes.Name | backend/main.py:37-93 | every type's key is a non-empty word of lowercase letters |
| CommitTypes.FromName | backend/main.py:105 | looking a key up in the table gives a type whose key is that key |
| CommitTypes.NameRoundTrip | backend/main.py:37-93 | each key looks up its own type, so no two types share a key |
| CommitTypes.Description | backend/main.py:37-93 | each entry's non-empty `description` text |
| CommitTypes.Keywords | backend/main.py:37-93 | each entry's `keywords` list, 3 to 6 non-empty keywords in table order |
| CommitTypes.TableShape | backend/main.py:37-93 | the table has 11 entries, all distinct, and lists every type |
| Patterns.TailMatches | backend/main.py:39 | `\s*.+` at the start of the tail: a run of whitespace, then at least one character other than a newline |
| Patterns.ColonTail | backend/main.py:39 | `:\s*.+` at the start: a colon, then the tail as above |
| Patterns.GroupAt | backend/main.py:39 | `\([^)]+\)` at one position: `(`, one or more characters other than `)`, then `)` (also the group of the scope search at line 97) |
| Patterns.AfterName | backend/main.py:39 | `(\([^)]+\))?:\s*.+` after the key: the group alternative first, then a colon and the tail; or the colon and tail directly |
| Patterns.MatchesKey | backend/main.py:39 | `^<key>(\([^)]+\))?:\s*.+` under `re.IGNORECASE`; a match is at least the key plus two characters, and the key is followed by `(` or `:` |
| Patterns.Matches | backend/main.py:106 | `re.match(pattern, message, re.IGNORECASE)` for a type: its key's pattern at the start of the message, so the message holds the key, then `(` or `:`, then at least one more character |
| Patterns.KeyMatchUnique | backend/main.py:39 | two letter keys whose patterns both match one message are equal, because a key must be followed by `(` or `:` |
| Patterns.MatchUnique | backend/main.py:126-127 | at most one type's pattern matches any message, so the loop order cannot change which type matches |
| Patterns.AfterNameStart | backend/main.py:39 | after a matched key comes `(` or `:` |
| Patterns.TailMatchesIff | backend/main.py:39 | `\s*.+` matches iff some character other than a newline follows |
| Patterns.StrippedTailMatches | backend/main.py:39 | on a stripped message, `\s*.+` matches whenever anything follows the colon |
| Patterns.KeyPrefix | backend/main.py:127 | case-insensitive reading of the key: the lowered prefix equals the key when each character lowers to the key's letter |
| Patterns.KeyColonMatches | backend/main.py:39 | `<key>:` followed by text not ending in a newline matches, with or without a space after the colon |
| Patterns.KeyGroupMatches | backend/main.py:39 | `<key>(<scope>):` with a non-empty `)`-free scope, followed by text, matches |
| Patterns.GroupClose | backend/main.py:97 | the group closes at the first `)` after its `(` |
| Patterns.GroupCloseAt | backend/main.py:97 | the close is at `q` when `q` holds the first `)` after the opening parenthesis |
| Patterns.GroupContents | backend/main.py:97-98 | a captured scope is non-empty and contains no `)` |
| Patterns.FindGroup | backend/main.py:97 | the search returns a position where a group matches with none earlier, or reports that there is none |
| Patterns.ExtractScope | backend/main.py:95-98 | `None` iff no `(...)` group with non-empty, `)`-free contents occurs anywhere; otherwise the contents of the leftmost such group |
| Patterns.ScopeAt | backend/main.py:95-98 | with no `(` before position p and the first `)` after it at q, the scope is the text between them |
| Patterns.NoParenNoScope | backend/main.py:95-98 | a message without `(` has no scope |
| Patterns.IsHeader | backend/main.py:129 | `[^:]+:\s*`: a non-empty colon-free run, a colon, then only whitespace |
| Patterns.StripHeader | backend/main.py:129 | the description is a suffix of the message; a message starting with `:` or without `:` is unchanged; otherwise what is cut off is a colon-free run, the first colon and only whitespace, and the rest does not start with whitespace |
| Patterns.StripHeaderAt | backend/main.py:129 | the cut ends after the first colon and the whitespace run that follows it |
| Patterns.PatternColon | backend/main.py:39 | a matched pattern has its colon after the key (or the key and group), and something follows it |
| Patterns.ConventionalDescription | backend/main.py:129 | for a stripped message matching a pattern, the description is a non-empty suffix that does not start with whitespace |
| Patterns.ConventionalScope | backend/main.py:128 | when the pattern's optional group is present, `extract_scope` returns that group's contents |
| Scoring.CountHits | backend/main.py:111 | the hit count is at most the number of keywords; 0 iff no keyword occurs; the full count iff all occur (so one keyword counts 1 iff it occurs) |
| Scoring.CountHitsAppend | backend/main.py:111 | the count over a concatenated keyword list is the sum of the counts over its parts; with the one-keyword case this makes it the number of keywords that occur |
| Scoring.CountHitsSingle | backend/main.py:111 | a single keyword counts 1 if it occurs in the lowered message, otherwise 0 |
| Scoring.KeywordMatches | backend/main.py:110-111 | a type's hit count is at most its number of keywords, and 0 iff none of its keywords occurs in the lowercased message |
| Scoring.KeywordConfidence | backend/main.py:113-116 | 50 iff no hit, 70 iff one, 80 iff two, 90 iff three or more (the cap of min(0.6 + 0.1k, 0.9)) |
| Scoring.KeywordConfidenceMonotone | backend/main.py:114 | more keyword hits never give a lower confidence |
| Scoring.CalculateConfidence | backend/main.py:100-116 | the result is one of 50, 70, 80, 90, 95; 95 iff the type's pattern matches; otherwise min(60 + 10k, 90) for k > 0 keyword hits and 50 for none |
| Scoring.LoopScore | backend/main.py:145-148 | the loop scores a type 0 exactly when none of its keywords occurs |
| Scoring.ScanKeywords | backend/main.py:143-151 | the loop ends on `chore` with 0 when nothing scored, else on the earliest type with the highest score, because `>` keeps an earlier type on a tie |
| Scoring.LeaderStep | backend/main.py:149-151 | one iteration replaces the leader only on a strictly higher score |
| Scoring.KeywordFallback | backend/main.py:139-157 | `chore` at 50 when no type scores; otherwise a type whose score is the result, no type scoring higher, every earlier type scoring strictly lower |
| Scoring.FallbackCharacterized | backend/main.py:139-157 | any type and confidence meeting the fallback's contract are exactly its result |
| Scoring.FallbackBelowConventional | backend/main.py:143-157 | when no pattern matches, each type's score is its keyword confidence, and the fallback confidence is 50, 70, 80 or 90 |
| Scoring.FallbackKeywordRule | backend/main.py:139-157 | when no pattern matches: `chore` at 50 if no type has a keyword hit; otherwise a type with hits whose confidence is min(60 + 10k, 90) for its k hits, no type above it, every earlier type strictly below |
| Classifier.FirstConventional | backend/main.py:126-127 | the first loop returns a type whose pattern matches, or reports that none from the start position on does |
| Classifier.FirstConventionalFinds | backend/main.py:126-136 | whenever a type's pattern matches, the first loop returns exactly that type |
| Classifier.NoneConventional | backend/main.py:126-138 | when the first loop finds nothing, no type's pattern matches |
| Classifier.ClassifyCommit | backend/main.py:118-158 | error iff the message is all whitespace; confidence in {50, 70, 80, 90, 95}; 95 iff some pattern matches the stripped message; the description is a non-empty suffix of the stripped message not starting with whitespace |
| Classifier.ConventionalClassification | backend/main.py:126-136 | a stripped message matching type t gives type t, the `extract_scope` scope, the header-stripped description and 95 |
| Classifier.ConventionalStripped | backend/main.py:126-136 | the same rule for a message that is its own strip, with the scope and description supplied |
| Classifier.ConventionalScopeAfterType | backend/main.py:128 | a group right after the type is the classification's scope |
| Classifier.FallbackClassification | backend/main.py:138-158 | with no pattern match: no scope, the stripped message as description, confidence below 95; `chore`/50 when no keyword hits; otherwise min(60 + 10k, 90) for the chosen type's k hits, no type higher, every earlier type strictly lower |
| Classifier.FallbackResult | backend/main.py:138-158 | a message no pattern matches gets the fallback's type and confidence, no scope, and the stripped message as description |
| Classifier.ClassifyIgnoresSurroundingSpace | backend/main.py:120 | classifying the stripped message gives the same result as classifying the message |
| Suggestions.Render | backend/main.py:167-185 | the exact text of each suggestion, the format one built from the type's key and the description |
| Suggestions.RenderFormat | backend/main.py:167 | the format suggestion's text is the fixed lead-in `FormatLead`, then the type's key, and ends with the description |
| Suggestions.IsPastTense | backend/main.py:178-179 | `any(first_word.startswith(ind) ...)`: the lowered word starts with one of the six past-tense markers |
| Suggestions.FirstWord | backend/main.py:177 | `split()[0]`: a non-empty whitespace-free word that starts after the leading whitespace and ends at whitespace or the end |
| Suggestions.Push | backend/main.py:162-185 | appending a firing rule keeps rule order and adds exactly that suggestion |
| Suggestions.Emit | backend/main.py:160-187 | the list is in rule order and holds each rule's suggestion iff that rule fires |
| Suggestions.GenerateSuggestions | backend/main.py:160-187 | at most 4 suggestions, in the order format, too short, too long, imperative, capitalisation; format iff the type's pattern does not match the raw message; too short iff fewer than 10 characters; too long iff more than 100; imperative iff the description's lowered first word starts with a past-tense marker; capitalisation iff the description starts with an uppercase letter |
| Suggestions.AtMostFour | backend/main.py:170-174 | the short and long rules cannot both fire, so at most four suggestions appear |
| Suggestions.RankBounds | backend/main.py:160-187 | in rule order the i-th suggestion's rank lies between i and what leaves room for the rest |
| Suggestions.RankAtLeastIndex | backend/main.py:160-187 | in rule order the i-th suggestion ranks at least i |
| Suggestions.RankRoomAfter | backend/main.py:160-187 | in rule order the i-th suggestion leaves room for the suggestions after it |
| Suggestions.LeadingSpaceGetsFormatHint | backend/main.py:166 | a raw message starting with whitespace always gets the format suggestion |
| Api.ClassifyMessage | backend/main.py:201-216 | error iff the message is all whitespace; the response echoes the message as sent, carries the classifier's verdict for it, and the suggestions for the raw message, at most 4 and in rule order |
| Api.FormatHintFollowsRawMessage | backend/main.py:205-206 | a conventional message without surrounding whitespace gets no format suggestion; with leading whitespace it always gets one |
| Api.Entry | backend/main.py:226-243 | an entry echoes its message and is an error exactly when the message is all whitespace |
| Api.MapItems | backend/main.py:226-243 | the batch loop yields one result per item, in input order, each the per-item function applied to that item |
| Api.ClassifyBatch | backend/main.py:220-245 | as many entries as messages, in input order, each computed from its own message alone; `total` is the count |
| Examples.FeatAddLogin | backend/main.py:126-136 | `feat: add login` classifies as `feat`, no scope, `add login`, 95 |
| Examples.FixWithScope | backend/main.py:126-136 | `fix(api): resolve bug` classifies as `fix`, scope `api`, `resolve bug`, 95 |
| Examples.NoSpaceAfterColon | backend/main.py:39 | `feat:x` matches the `feat` pattern |
| Examples.ScopeAnywhere | backend/main.py:97 | `feat: add (x)` matches `feat`, and the scope search on it gives `x` |
| Examples.ColonInScope | backend/main.py:129 | `feat(a:b): x` matches `feat`, and the header removal on it gives `b): x` |
| Examples.TrailingSpaceTail | backend/main.py:39 | the raw message `feat: ` matches the `feat` pattern; `feat:` followed by a newline does not |
| Examples.EmptyRejected | backend/main.py:120-123 | the empty message and a message of three spaces are rejected |

## Left out

- HTTP plumbing is not modelled: the FastAPI app, CORS middleware, pydantic models, route decorators and `uvicorn.run` (backend/main.py:1-33, 268-269).
- The `try/except` in the single-message route is not modelled. It turns the 400 for an empty message into a 500. `Api.ClassifyMessage` returns the classifier's own error.
- Timestamps (`datetime.now().isoformat()`) are left out. They read the clock.
- The `/`, `/types` and `/stats` handlers are not modelled. They echo static data. The table they echo is `CommitTypes.AllTypes`, `Description` and `Keywords`, and `CommitTypes.TableShape` states its size and order.
- Confidence is an integer in hundredths, not a float. For every value the engine produces, Python's float arithmetic gives exactly 0.5, 0.7, 0.8, 0.9 or 0.95, so comparisons and ties are the same.
- Case mapping covers ASCII letters only. This applies to `lower()`, `isupper()` and `re.IGNORECASE`. Python's `re.IGNORECASE` also matches the dotless `ı` against `i` and the long `ſ` against `s`. So `fıx: x` is a conventional `fix` in Python, but the model classifies it by keywords. Non-ASCII `lower()` mappings that change a string's length are not modelled either.
- The error text of a failed batch item (`str(e)` of the HTTP exception) is not modelled. The entry carries the error kind `EmptyMessage`.
- test_api.py is not modelled. It is an HTTP client script that prints responses and asserts nothing.
- There is no worked example of the keyword fallback on a concrete message, such as `added new feature`. The general rule is proved in `Classifier.FallbackClassification`.
