# Crabby's Taffy refund agent: tools and chat host, in Dafny

This project models the deterministic core of the refund assistant:

- **Refund tools** (`tools/tools.py`):
  - the eligibility check, which accepts a refund only for an insured shipment that was damaged, never arrived or was lost;
  - the refund processor, which always reports success with a synthetic refund id.
- **Chat host** (`ReclaimBotUI/agent.py`):
  - the loop that collects the agent's reply from the events of one run;
  - the sanitiser that removes a boolean the model sometimes echoes at the start of its reply;
  - the two chat-window callbacks.

Modules:

- `Wrappers` (wrappers.dfy): the `Option` datatype.
- `Text` (text.dfy): `str.strip()` and `str.upper()` over ASCII whitespace and letters, with their algebra.
  - Strip is characterised as the unique split into whitespace, a core, and whitespace.
  - Strip is idempotent and commutes with upper-casing.
- `Decimal` (decimal.dfy): decimal rendering of integers and of `:.2f` amounts held as whole cents, with parsers that read them back.
- `Tools` (tools.dfy): `check_refund_eligibility` and `process_refund`.
- `Sanitizer` (sanitizer.dfy): `sanitize_response`.
  - Each of the two regular expressions is written out as a chain of predicates, one per regex element.
  - A hand-rolled scanner is proved to find the longest prefix that matches.
  - For these two patterns, the longest match is the match Python's backtracking engine returns. Every quantifier is greedy, and a run of one character class can only give characters to a later element of the same class.
- `ChatHost` (chat.dfy):
  - `run_agent_query`'s accumulation loop, as a method proved against a fold over the events;
  - `chat` and `clear_chat`.

## Model

| member | source | states |
|---|---|---|
| Text.StripSplit | tools/tools.py:209-210 | `strip()` only removes whitespace: the input is whitespace, then the result, then whitespace |
| Text.StripUnique | tools/tools.py:209-210 | any split into whitespace, a core with non-space ends, and whitespace has that core as the stripped text |
| Text.StripIgnoresPadding | tools/tools.py:209-210 | adding whitespace on either side does not change the stripped text |
| Text.StripIdempotent | tools/tools.py:209-210 | stripping twice is stripping once |
| Text.UpperEqual | tools/tools.py:209-210 | two strings upper-case to the same text exactly when they are equal ignoring letter case |
| Text.UpperIdempotent | tools/tools.py:209-210 | upper-casing twice is upper-casing once |
| Text.StripUpperCommute | tools/tools.py:209-210 | stripping then upper-casing equals upper-casing then stripping |
| Decimal.NatRoundTrip | tools/tools.py:240 | the decimal digits of a non-negative amount read back as that amount |
| Decimal.IntRoundTrip | tools/tools.py:240 | the decimal rendering of any integer, sign included, reads back as that integer |
| Decimal.IntToStringInjective | tools/tools.py:240 | distinct integers render as distinct texts |
| Decimal.CentsRoundTrip | tools/tools.py:243 | the `:.2f` text of an amount held in cents is well formed (sign, dollars, point, two digits) and reads back as the same number of cents |
| Tools.NormalizeIdempotent | tools/tools.py:209-210 | normalising (strip, then upper-case) a normalised value changes nothing |
| Tools.NormalizeSpells | tools/tools.py:209-210 | a value normalises to a policy word exactly when it is that word in any letter case, surrounded only by whitespace |
| Tools.EligibilityPolicy | tools/tools.py:21-22 | eligible exactly when the shipping method spells INSURED and the reason spells DAMAGED, NEVER_ARRIVED or LOST, up to letter case and surrounding whitespace |
| Tools.UninsuredNeverEligible | tools/tools.py:216-219 | a shipping method that does not spell INSURED is never eligible, whatever the reason |
| Tools.EligibilityIgnoresNormalization | tools/tools.py:209-219 | checking already-normalised values gives the same verdict |
| Tools.EligibilityIgnoresPadding | tools/tools.py:209-219 | whitespace around either argument, each padded independently, does not change the verdict |
| Tools.EligibilityIgnoresCase | tools/tools.py:209-219 | arguments equal up to letter case get the same verdict |
| Tools.NormalizeIgnoresCase | tools/tools.py:209-210 | values equal up to letter case normalise alike |
| Tools.LowerCaseForgiven | tools/tools.py:198-222 | "never_arrived" with "insured" is eligible |
| Tools.InnerSpaceNotForgiven | tools/tools.py:198-222 | "NEVER ARRIVED" (a space for the underscore) with "INSURED" is not eligible |
| Tools.PaddedReasonEligible | tools/tools.py:198-222 | " damaged " with "insured" is eligible |
| Tools.StandardShippingNotEligible | tools/tools.py:198-222 | "LOST" with "STANDARD" shipping is not eligible |
| Tools.MixedCaseEligible | tools/tools.py:198-222 | "lost" with "Insured" is eligible |
| Tools.RefundIdInjective | tools/tools.py:240 | for one order, distinct amounts give distinct refund ids |
| Tools.RefundIdDeterminesOrder | tools/tools.py:240 | for non-negative amounts, the refund id determines both the order id and the amount |
| Tools.RefundIdNegativeCollision | tools/tools.py:240 | with a negative amount, two different orders can share a refund id: ("A-", 12) and ("A", -12) |
| Tools.RefundMessageContents | tools/tools.py:225-243 | the refund always succeeds: the message opens with the success text, then names the refund id, and the amount it quotes reads back as the refunded cents |
| Sanitizer.EchoEndSound | ReclaimBotUI/agent.py:147-159 | the prefix the scanner finds matches the pattern |
| Sanitizer.EchoEndMaximal | ReclaimBotUI/agent.py:147-159 | every prefix that matches the pattern ends no later than the one the scanner finds |
| Sanitizer.StripEcho | ReclaimBotUI/agent.py:147-159 | one substitution only ever removes a prefix: the result is a suffix of the input |
| Sanitizer.StripEchoRemovesLongestMatch | ReclaimBotUI/agent.py:147-159 | one substitution leaves the text unchanged exactly when no prefix matches the pattern; otherwise it removes the longest prefix that matches |
| Sanitizer.SanitizeResponse | ReclaimBotUI/agent.py:139-160 | the sanitised reply is always a suffix of the reply |
| Sanitizer.MatchBeginsWithBoolean | ReclaimBotUI/agent.py:147-159 | whatever prefix matches opens, after whitespace and at most one quote, with true or false |
| Sanitizer.UnchangedWithoutBoolean | ReclaimBotUI/agent.py:139-160 | a reply that does not open with a boolean is returned unchanged |
| Sanitizer.BooleanInsideSentenceKept | ReclaimBotUI/agent.py:139-160 | "It is true that it shipped" is left alone |
| Sanitizer.BareBooleanKept | ReclaimBotUI/agent.py:147-159 | a bare "true" is left alone: nothing follows it to end the match |
| Sanitizer.LongerWordKept | ReclaimBotUI/agent.py:147-159 | "trueish" is left alone |
| Sanitizer.TwoLinesOfBooleans | ReclaimBotUI/agent.py:147-159 | "true\nfalse rest" becomes "rest": pass 1 removes the first line, pass 2 the second boolean |
| Sanitizer.QuotedBooleanWithColon | ReclaimBotUI/agent.py:154-159 | a quoted boolean, the colon and the space after it are removed together |
| Sanitizer.SpacedBooleanEcho | ReclaimBotUI/agent.py:147-159 | "true " followed by a word: pass 1 finds no match, and pass 2 removes exactly the boolean and the space |
| Sanitizer.NotIdempotent | ReclaimBotUI/agent.py:139-160 | each call removes one boolean: "true true true x" becomes "true true x", and a second call gives "true x" |
| ChatHost.RunAgentQuery | ReclaimBotUI/agent.py:115-121 | the collected reply is the fold over the events, each adding its first-part text and a line feed when that text is non-empty, with the result stripped |
| ChatHost.CollectFrom | ReclaimBotUI/agent.py:117-120 | the loop's result from any accumulated text is that text followed by what the remaining events add |
| ChatHost.TranscriptAppend | ReclaimBotUI/agent.py:118-120 | collecting a run in two pieces gives the two pieces' texts one after the other |
| ChatHost.TranscriptIsLines | ReclaimBotUI/agent.py:118-120 | the collected text is every non-empty first-part text, in event order, each followed by a line feed |
| ChatHost.NoTextNoResponse | ReclaimBotUI/agent.py:115-121 | a run in which no event carries text replies with the empty text |
| ChatHost.SingleTextResponse | ReclaimBotUI/agent.py:115-121 | a run with one text event replies with that text, stripped |
| ChatHost.Chat | ReclaimBotUI/agent.py:163-173 | the input box is always cleared. A blank message returns the history as given (an absent one stays absent). Otherwise the history, absent counting as empty, is kept as a prefix and gains exactly two entries: the user's message verbatim, then an assistant entry whose text is a suffix of the agent's reply |
| ChatHost.ChatRepliesSanitized | ReclaimBotUI/agent.py:167-172 | the assistant entry holds the agent's reply after `sanitize_response` |
| ChatHost.ChatKeepsPlainReply | ReclaimBotUI/agent.py:167-172 | an agent reply that does not open with a boolean reaches the history unchanged |
| ChatHost.BlankMessageIgnored | ReclaimBotUI/agent.py:165-166 | any message made only of whitespace, the empty one included, leaves the history as given and clears the input |
| ChatHost.ClearChat | ReclaimBotUI/agent.py:175-176 | clearing returns two empty lists |
| ChatHost.ChatAfterClear | ReclaimBotUI/agent.py:163-176 | after clearing, the first non-blank message starts a history of exactly one exchange, opening with the user's message |

## Left out

- Amounts are whole cents, not Python floats.
  - The source computes the id's cents as `int(amount*100)` on a binary float. That truncates: for example 0.29 gives 28, so some amounts quote one figure and use another in the id.
  - The model takes the amount as an exact integer number of cents. It renders `:.2f` from those cents.
  - The 0.29 example is IEEE-754 double arithmetic: `0.29*100` is `28.999999999999996`, which `int` truncates to 28. The model does not capture this float rounding.
- Whitespace and letter case are ASCII only.
  - Whitespace is space, tab, line feed, carriage return, form feed and vertical tab.
  - Python's `str.strip()` and `\s` also treat the four ASCII separators `\x1c`, `\x1d`, `\x1e` and `\x1f` as whitespace; the model does not. For example, Python finds `("LOST\x1c", "INSURED")` eligible and the model does not.
  - Python's `str.strip()`, `str.upper()`, `\s` and `re.IGNORECASE` also act on Unicode whitespace and letters. For example, `re.IGNORECASE` matches `ſ` against `s`, and `upper()` turns `ß` into `SS`.
- Sanitizer.SanitizeResponse: the `isinstance(text, str)` guard is not modelled. Every reply in the model is a string.
- ChatHost.RunAgentQuery: events are taken as given.
  - The agent, its sub-agents, the runner, the session and the asynchronous event stream are not part of this model.
  - An event whose content is absent, on which the source would raise, is not represented.
- ChatHost.Chat: the user message is always a string. The source also accepts `None`, which it treats like a blank message.
- The messages are typed records: role and content stand for the source's `{"role", "content"}` dictionaries.
- The window's input-box update is modelled as the new input text, the empty string.
- `get_purchase_history`: a BigQuery query against a foreign system. The customer-name filter, the row conversion (dates rendered with `isoformat`) and the fallback to an empty list on any error all run outside the model.
- `send_email`, `send_email_tool` and `show_working`: these are I/O and UI state.
- Logging, environment and credential setup, and the Gradio layout are I/O.
