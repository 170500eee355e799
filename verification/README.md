# Verified models of the text and decoding algorithms under common/

This project models, in Dafny, the algorithmic parts of `common/` that do not need a model or a device: the
streaming PEG parser and its builder, the JSON-schema to grammar compiler, the regular expression transformation for
partial matches, the two stateful speculative drafters, the sampler that checks drafts, the reasoning budget, the
n-gram cache, the device-memory fitting, and the UTF-8 and base64 codecs; with them, the turns of the server around
the drafters, and how the grammar reader takes what is printed for it. Code that works in place is modelled by
classes, arrays and loops whose contracts tie them to specification functions; what the code is for is proved about
these functions, for all inputs, all runs and all reachable states.

`dafny verify dfyconfig.toml` checks everything.

| file | about |
|---|---|
| Utf8, Base64 | the codecs |
| Peg, PegContext | the parsers as functions, and the executor as an object that is proved to compute them |
| PegModes, PegStreaming, PegAst, PegRewrite | lenient and strict runs, growing input, syntax trees, build-time rewriting |
| PegUntil, PegTrie | the delimiter trie, scanning up to a delimiter, and the grammar for it |
| GrammarText, PegUntilText | how the grammar reader takes classes and literals; that grammar as text |
| PegBuilder, PegJson | the arena builder and its JSON rules; JSON parsing returns, and what it refuses |
| Decimals, IntRange, Repetition | integer ranges and separated repetitions as grammars |
| RuleSet, ObjectRule, NotStrings | named rules, objects with optional properties, excluded keys |
| RegexPartial, RegexText | the reversed partial pattern: its language, its text |
| RegexPrinted, RegexReader | that text read as a pattern, and the loop that writes it |
| Eagle3, Eagle3Draft, Eagle3Context, Mtp | drafters that carry state from batch to batch |
| Eagle3Server, MtpServer | the server's turns around them, for several sequences at once |
| ReasoningBudget, Sampling | the budget sampler, and sampling with a grammar, a budget and a draft |
| NgramCache, Fit | token counts, and layers per device |
| Wrappers, Hiding | optional values, and a trigger that keeps quantifiers out of proofs that do not need them |

Conventions. Sizes, counts and logits are mathematical numbers; where a width matters it is written out
(`% 256`, `UINT32_RANGE`, `INT_MAX`). Bytes are integers below 256. Bit masks and shifts are written as quotients and
remainders. The language model, the vocabulary, the draft model, the memory measurement, the grammar and the chain of
samplers are parameters: every theorem holds for all of them. The C++ call stack of the PEG executor is a number of
nested calls (`depth`); theorems are about runs of any depth, and `PegRewrite.DeeperRun` and `PegRewrite.ReturnsOnce`
show that a run that returns does not depend on it.

Where the code does not do what is written about it, the model follows the code:

- `ObjectRule.ExactIffStarFree`: a property named "*" is mixed up with the additional properties
  (common/json_schema_to_grammar.cpp:676); the rule is exact if and only if there is no such property.
- `NotStrings.NamesRejectedIff`: if the empty name is the only one, it is accepted.
- `NotStrings.WellReadIff`: names are printed into character classes as they are, so the rule is read as it was printed
  if and only if every character of a name stands for itself there (ASCII but for `]`, `^`, `\` and the zero).
- `NotStrings.MeansTheTrieIff`: a dash that is printed before a greater character makes a range; the rule then refuses
  keys that begin no name. `NotStrings.UserNameRefused` ("userName" beside "user-id" and "userid") and
  `NotStrings.DashAndLetterRefuse` are inputs.
- `NotStrings.RejectsJustTheNamesIff`: the rule for "none of the provided strings" also rejects every key that is a
  proper beginning of a listed name.
- `Eagle3.RunHoldsIff`: a turn without a draft of this drafter, after a rejection, leaves the rejected token in the
  draft memory (the third condition of the bridge, common/speculative.cpp:668-672, keeps it from being replaced);
  `Eagle3.StaleTokenStays` is such a run, and `Eagle3Server.ServedHoldsIff` says it of the server's runs.
- `PegUntil.GrammarCoversUntilIff`: with an empty delimiter the printed grammar does not cover `until`, unless every
  code point begins some delimiter; `PegUntil.EmptyDelimiterUncovered` is an input.
- `PegUntilText.PrintedCoversUntilIff`: the text printed for it cannot be read back if a dash is printed into a class
  (as `\-`, common/peg_parser.cpp:1455, an escape that models/lhm_grammar.cpp:162-183 refuses), if a zero character is
  printed into a literal, or if there are no alternatives to repeat. `PegUntilText.ArrowUnread` is the delimiter "-->".
- `PegJson.SpaceBeforeCommaFails`: common/peg_parser.h:457 speaks of a complete JSON parser, but an array with spaces
  before the first comma is refused, which section 2 of RFC 8259 allows; `PegJson.SpacedArrayRefused` is such a text.
- `Utf8.ReencodeIffShortest`: overlong forms and values above 0x10FFFF are decoded; `Utf8.DecodesTooMuch` has one input
  of each kind.
- `ReasoningBudget.ForcesAtCompleteIff`: the end of a character is looked for in the piece of one token, not in the text
  so far; `ReasoningBudget.ForcingMisplaced` has a piece that completes a character unseen, and an empty piece behind
  which a character is cut.
- `ReasoningBudget.HitsEveryOccurrenceIff`: the matcher misses occurrences if the first token of the pattern occurs
  again in it.
- `RegexText.ReluctanceIsLost`, `RegexText.ReluctantNothing`, `RegexText.RefusedIffEmptyAlternative`: the comment at
  common/regex_partial.cpp:60 says that a lone reluctant star is an error, as it could match nothing; the code drops the
  question mark, and refuses a pattern only if an alternative has nothing to write. Behind braces the mark goes to the
  last copy, so `a{2}?` becomes `aa?`; behind `{0}` it goes to whatever stands before.

## Model

| member | source | states |
|---|---|---|
| Utf8.ComputeIsComplete | common/unicode.cpp:72-84 | the backward scan computes whether the last code point that begins near the end has all its bytes |
| Utf8.CodePointsToUtf8 | common/unicode.cpp:86-92 | the loop gives the concatenated encodings, and nothing if one code point is too large |
| Utf8.DecodeEncode | common/unicode.cpp:17-70 | decoding where a code point was encoded gives it back with its length, whatever surrounds it |
| Utf8.RoundTrip | common/unicode.cpp:86-121 | any list of code points encoded and then decoded in a loop is itself |
| Utf8.ScanTruncated | common/unicode.cpp:17-70 | every truncated encoding decodes to a prefix of the code points and then to "incomplete", never to "invalid" |
| Utf8.CompleteExactlyAtCuts | common/unicode.cpp:72-84 | of a valid text, exactly the prefixes that end between code points are complete |
| Utf8.ReencodeIffShortest | common/unicode.cpp:17-70 | what is decoded re-encodes to the bytes read if and only if their first two are those of a shortest form (from C2, E0 A0 or F0 90 on, up to F4 8F) |
| Utf8.DecodesTooMuch | common/unicode.cpp:33-66 | C0 80 is decoded to zero and F4 90 80 80 to 0x110000 |
| Utf8.PieceDecidesIff | common/unicode.cpp:72-84 | the test says the same of the last piece and of the whole text if and only if a character begins in its last four bytes, or its continuation bytes complete nothing, or it is empty and the text complete |
| Utf8.PiecesMislead | common/unicode.cpp:72-84 | E2 82 then AC: the text is complete and the piece is not; then nothing: the other way round |
| Base64.CharOfTable | common/base64.hpp:57-60 | the characters written are those of the two tables |
| Base64.Encode | common/base64.hpp:54-118 | the loop gives the encoding of every group of three bytes, into exactly the required size |
| Base64.RoundTrip | common/base64.hpp:54-218 | decoding inverts encoding for both alphabets, with the alphabet given or detected, loose or not |
| Base64.DecodedIff | common/base64.hpp:174-218 | a text is decoded if and only if its characters belong to one readable alphabet and padding follows; three quarters as many bytes |
| Base64.DecodeLoop | common/base64.hpp:183-205 | over one buffer the loop writes the decoded bytes and never reaches what is still to be read |
| Base64.DecodeInPlace | common/base64.hpp:268-289 | the buffer begins with the decoded bytes, or an error is reported where decoding a copy would fail |
| PegContext.Context.ParseAt | common/peg_parser.cpp:905-910 | the executor returns, and leaves in its arena, what the specification says |
| PegContext.Context.ParseSequence | common/peg_parser.cpp:398-447 | sequences: nodes in order, failure and NEED_MORE where the specification has them |
| PegContext.Context.ParseChoice | common/peg_parser.cpp:449-482 | choices: the first alternative that does not fail |
| PegContext.Context.ParseRepetition | common/peg_parser.cpp:484-573 | repetitions: bounds, empty matches, and too few matches at the end of lenient input |
| PegContext.Context.ParseChars | common/peg_parser.cpp:628-690 | character classes between a minimum and a maximum count |
| PegContext.Context.ParseString | common/peg_parser.cpp:692-769 | quoted content with escapes, read up to the delimiter |
| PegContext.Context.ParseUntil | common/peg_parser.cpp:771-818 | the scan up to a delimiter, by the trie |
| PegContext.Context.LabelNode | common/peg_parser.cpp:824-877 | rules and tags put one node over the nodes of their child |
| PegContext.Context.ParseRoot | common/peg_parser.cpp:898-903 | a parse from the root, or the exception where there is none |
| PegModes.LenientRefinesStrict | common/peg_parser.cpp:362-896 | a lenient run either asks for more input or is the strict run, with result, tree and exceptions |
| PegStreaming.RunKeeps | common/peg_parser.cpp:380-690 | over an input that does not end inside a code point, failures and early successes survive every continuation, with the same tree |
| PegStreaming.CompleteDoesNotEndInside | common/unicode.cpp:72-84 | an input that the completeness test accepts does not end inside a code point |
| PegStreaming.StreamsSafelyIff | common/peg_parser.cpp:380-690 | settled outcomes survive for every stream grammar if and only if the input does not end inside a code point |
| PegAst.RunShape | common/peg_parser.cpp:398-573 | in every arena a run leaves: children before parents, inside their spans, ordered and disjoint |
| PegAst.LabelShape | common/peg_parser.h:90-107 | a new node over a well-shaped forest keeps the arena well-shaped |
| PegAst.PartialOnlyOnRightSpine | common/peg_parser.cpp:824-891 | a success reaches no partial node, NEED_MORE only along the last children |
| PegRewrite.DeeperRun | common/peg_parser.cpp:905-910 | a run that does not exhaust the stack gives the same on any larger one |
| PegRewrite.ReturnsOnce | common/peg_parser.cpp:898-910 | what a parse returns does not depend on the stack |
| PegRewrite.ResolvePreserves | common/peg_parser.cpp:912-991 | replacing references by rule ids leaves every result and tree unchanged, in both directions |
| PegRewrite.ResolvePreservesRoot | common/peg_parser.cpp:945-991 | so does replacing the root |
| PegRewrite.FlattenSequencePreserves | common/peg_parser.cpp:1156-1168 | a flattened sequence returns exactly what the nested one does |
| PegRewrite.FlattenChoicePreserves | common/peg_parser.cpp:1188-1200 | a flattened choice returns exactly what the nested one does |
| PegBuilder.Builder.AddSequence | common/peg_parser.cpp:1156-1168 | the loop adds the flattened sequence |
| PegBuilder.Builder.AddChoice | common/peg_parser.cpp:1188-1200 | the loop adds the flattened choice |
| PegBuilder.Builder.ResolveRefs | common/peg_parser.cpp:945-991 | the loop over the arena in place succeeds if and only if no reference dangles, and then resolves all of them |
| PegBuilder.Builder.Json | common/peg_parser.cpp:1292-1367 | the mutually recursive rule methods end, and bind every rule of JSON they reach to its body without touching other rules |
| PegBuilder.ResolvedShape | common/peg_parser.cpp:912-991 | what was said about every parser when it was added holds after the references are resolved |
| PegBuilder.BuildJson | common/peg_parser.cpp:1236-1367 | the arena of json() has the seven rules of JSON under their names, each with its whole body, the rule of values as the root, and is a stream grammar |
| PegBuilder.JsonSettles | common/peg_parser.cpp:898-910 | a JSON text that arrives in pieces: a failure, or a success before the end of complete input, is final, with its tree |
| PegJson.JsonReturns | common/peg_parser.cpp:1292-1367 | on every input, from every position, in both modes, JSON parsing returns if the stack is large enough |
| PegJson.SpaceBeforeCommaFails | common/peg_parser.cpp:1341-1354 | an array with spaces before its first comma is refused, whatever its first element is and whatever follows |
| PegJson.SpacedArrayRefused | common/peg_parser.h:457-459 | the JSON text "[[] ,[]]" is refused on every stack that is large enough |
| PegUntil.CheckAtMeans | common/peg_parser.cpp:61-89 | the trie stops exactly where a delimiter starts or the rest is a proper prefix of one |
| PegUntil.PrefixCode | common/peg_parser.cpp:61-89 | prefixes of valid UTF-8 texts are prefixes of their code points |
| PegUntil.UntilStopsFirst | common/peg_parser.cpp:771-818 | on valid UTF-8 the scan stops at the least such code point position, otherwise at the end |
| PegUntil.GrammarCoversUntilIff | common/peg_parser.cpp:1504-1551 | the grammar for `until` accepts the text of every span that it succeeds with on valid UTF-8 if and only if no delimiter is empty, or every code point begins one; without delimiters it is any text |
| PegUntil.EmptyDelimiterUncovered | common/peg_parser.cpp:1504-1551 | with an empty delimiter alone, "a" is a span and not accepted |
| PegTrie.Trie.Insert | common/peg_parser.cpp:131-153 | inserting a delimiter in place keeps the trie of all words so far |
| PegTrie.Trie.constructor | common/peg_parser.cpp:44-49 | the trie of all delimiters |
| PegTrie.Trie.CheckAt | common/peg_parser.cpp:61-89 | walking the trie gives the verdict of the list of words |
| PegTrie.Trie.Collect | common/peg_parser.cpp:91-129 | every path that is not a word, with exactly its next characters |
| PegTrie.ExcludingPattern | common/peg_parser.cpp:1504-1551 | the pattern of the delimiters: a piece for each beginning that is none, with the characters that go on, and the beginnings again at the end |
| PegTrie.UntilToGbnf | common/peg_parser.cpp:1763-1767 | the grammar for `until`: any text without delimiters, that pattern otherwise |
| GrammarText.ReadAnywhere | models/lhm_grammar.cpp:543-570 | a class that is read by itself is read so wherever it stands |
| GrammarText.SingleRead | models/lhm_grammar.cpp:162-183 | a class of one ordinary character means just that character |
| GrammarText.SingleBroken | models/lhm_grammar.cpp:19-33 | any other first byte in a class does not end where it was printed to end, or stands for nothing |
| GrammarText.RejectMeans | models/lhm_grammar.cpp:543-570 | a negated class of a quote and ascending ordinary characters rejects them, and whatever lies between the neighbours of a dash |
| PegUntilText.ClassReadIff | common/peg_parser.cpp:1454-1501 | an escaped class is read back as its characters if and only if no dash is among them |
| PegUntilText.LiteralReadIff | common/json_schema_to_grammar.cpp:302-310 | a literal is read back as its code points if and only if no zero is among them |
| PegUntilText.TextReadIff | common/peg_parser.cpp:1504-1551 | the printed pattern is read back if and only if it has an alternative, no class has a dash and no literal a zero |
| PegUntilText.PrintedCoversUntilIff | common/peg_parser.cpp:1763-1767 | what is printed for `until`, as its reader takes it, covers every span if and only if there are no delimiters, or the text is read back and no delimiter is empty (or all code points begin one) |
| PegUntilText.ArrowUnread | common/peg_parser.cpp:1454-1457 | what is printed for "-->" is not read back |
| PegUntilText.PrintUntil | common/peg_parser.cpp:1504-1551 | the loops print that text, or throw exactly if a beginning of a delimiter has no UTF-8 |
| IntRange.UniformMeans | common/json_schema_to_grammar.cpp:72-126 | `uniform_range` prints exactly the numerals of equal length between its bounds |
| IntRange.SplitMeans | common/json_schema_to_grammar.cpp:85-122 | the part behind the common prefix, split at the first digit |
| IntRange.SplitRange | common/json_schema_to_grammar.cpp:85-122 | the branches print that split |
| IntRange.BuildNonNegative | common/json_schema_to_grammar.cpp:143-153 | the loop over digit counts prints exactly the canonical numerals of a range from zero up |
| IntRange.BuildMinMaxInt | common/json_schema_to_grammar.cpp:128-155 | a closed range prints exactly its canonical decimals, plus "-0" when it straddles zero |
| Repetition.BuildPlain | common/json_schema_to_grammar.cpp:17-33 | without a separator: exactly n items for the n within the bounds |
| Repetition.BuildSeparated | common/json_schema_to_grammar.cpp:17-42 | with a separator: exactly n items with n - 1 separators between them |
| RuleSet.EscapeRun | common/json_schema_to_grammar.cpp:324-325 | in rule names every run of other characters becomes one dash |
| RuleSet.EscapeAllowed | common/json_schema_to_grammar.cpp:324-325 | and a name of letters, digits and dashes stays as it is |
| RuleSet.NumberedInjective | common/json_schema_to_grammar.cpp:330-334 | numbered names are all different |
| RuleSet.Rules.AddRule | common/json_schema_to_grammar.cpp:324-337 | the search for a name ends, the returned name has the rule, no bound name gets another one |
| ObjectRule.InlineExtends | common/json_schema_to_grammar.cpp:707-712 | rules added later do not change what a reference stands for |
| ObjectRule.AlternativesMean | common/json_schema_to_grammar.cpp:694-721 | the optional part accepts exactly the non-empty selections, commas between entries |
| ObjectRule.ObjectExact | common/json_schema_to_grammar.cpp:640-731 | the language is the brace, all required properties, any in-order optional ones, then additional ones, with commas exactly between |
| ObjectRule.ExactIffStarFree | common/json_schema_to_grammar.cpp:676-705 | and this holds if and only if no property is named "*" where it is taken for the additional entry |
| ObjectRule.GetRecursiveRefs | common/json_schema_to_grammar.cpp:694-714 | the recursive rest rules, inlined, are the chain of the remaining keys |
| ObjectRule.BuildObjectRule | common/json_schema_to_grammar.cpp:640-731 | the returned rule, inlined over the rules added on the way, is the object grammar, and accepts exactly the objects of the schema if and only if no property is named "*" where it is taken for the additional entry |
| NotStrings.NameTrie.Insert | common/json_schema_to_grammar.cpp:573-579 | inserting a name in place keeps the trie of all names so far |
| NotStrings.NameTrie.Visit | common/json_schema_to_grammar.cpp:590-615 | the recursive walk prints the alternatives of a node in the order of its characters, then the class of the others |
| NotStrings.BuildNotStrings | common/json_schema_to_grammar.cpp:565-624 | the trie built in place and walked prints the rule of the names, which the next rows are about |
| NotStrings.WellReadIff | common/json_schema_to_grammar.cpp:590-624 | the rule is read as it was printed if and only if every character of a name stands for itself in a class |
| NotStrings.PrintedMeans | common/json_schema_to_grammar.cpp:590-615 | a node accepts, of the plain words, exactly those that leave the names after its path at a character that no range swallows |
| NotStrings.RuleMeans | common/json_schema_to_grammar.cpp:615-624 | so does the rule for plain keys in quotes, and the empty key unless it is a name among others |
| NotStrings.MeansTheTrieIff | common/json_schema_to_grammar.cpp:565-624 | a plain key is accepted exactly if it begins no name, if and only if moreover no dash stands before a greater character in a class, but for a comma and a dot around it |
| NotStrings.NamesRejectedIff | common/json_schema_to_grammar.cpp:565-624 | the rule is read as printed and accepts none of the names if and only if their characters stand for themselves and some name is not empty, or there are no names |
| NotStrings.RejectsJustTheNamesIff | common/json_schema_to_grammar.cpp:557-624 | the rule means "none of these" if and only if it is read as printed, no dash makes a range, some name is not empty and every beginning of a name is a name |
| NotStrings.UserNameRefused | common/json_schema_to_grammar.cpp:590-613 | with "user-id" and "userid", "userName" is refused, though it begins neither |
| NotStrings.DashAndLetterRefuse | common/json_schema_to_grammar.cpp:590-613 | with "-" and "a", "B" is refused |
| RegexPartial.UnrollKeeps | common/regex_partial.cpp:138-150 | copies, optional copies and a star match whatever the counted element matched |
| RegexPartial.ChainComplete | common/regex_partial.cpp:180-195 | the nested optional groups accept the reversal of every beginning of a sequence |
| RegexPartial.Complete | common/regex_partial.cpp:71-204 | every non-empty beginning of every matched word, reversed, is in the language of the new pattern |
| RegexText.TransformsWritten | common/regex_partial.cpp:71-204 | every pattern as it is written, reluctant quantifiers included, becomes the text of its transformation, or fails exactly if an alternative is empty |
| RegexText.StoiDecimal | common/regex_partial.cpp:127-134 | the bounds in braces are read as they are written |
| RegexText.ReluctanceIsLost | common/regex_partial.cpp:97-150 | wherever they stand, a reluctant star gives the result of an eager one, and a reluctant `{n}` that of `{n-1,n}`, also where that is an error |
| RegexText.ReluctantNothing | common/regex_partial.cpp:138-150 | behind a count of zero the mark goes to what stands before, or is an error |
| RegexText.RefusedIffEmptyAlternative | common/regex_partial.cpp:184-195 | whatever it matches, a pattern is refused if and only if some alternative has no elements but those repeated zero times |
| RegexText.LazyStarIsAccepted | common/regex_partial.cpp:97-108 | for one, a lone reluctant star matches the empty text and is no error |
| RegexPrinted.PartialMeans | common/regex_partial.cpp:180-203 | the returned text is a written pattern that matches exactly what the parts accept |
| RegexPrinted.PrintedComplete | common/regex_partial.cpp:51-204 | of every pattern that is not refused, the returned text matches the reversal of every non-empty beginning of every matched word |
| RegexReader.Reader.ReadClass | common/regex_partial.cpp:80-96 | the class up to its bracket, escapes counted as one character |
| RegexReader.Reader.ReadBraces | common/regex_partial.cpp:109-150 | counted repetitions become copies in place, with all error cases |
| RegexReader.Reader.Process | common/regex_partial.cpp:75-197 | the loop with its shared iterator computes the specification, through nested groups |
| RegexReader.Reader.RenderChain | common/regex_partial.cpp:184-195 | the two loops write the nested optional groups |
| RegexReader.RegexToReversedPartialRegex | common/regex_partial.cpp:71-204 | the whole function computes the specification |
| Eagle3.ProcessHoldsIff | common/speculative.cpp:657-693 | after a batch the memory holds (token[P+1], g[P]) below the open position if and only if that position was free or held the next token |
| Eagle3.ProcessSplit | common/speculative.cpp:657-693 | however a stream is cut into two batches, memory and open boundary come out the same |
| Eagle3.DraftSeeds | common/speculative.cpp:718-742 | drafting completes the open boundary with the freshest token and changes nothing below |
| Eagle3.RoundStands | common/speculative.cpp:834-849 | accepting part of a draft moves the open boundary to the last accepted token |
| Eagle3.RoundHoldsIff | common/speculative.cpp:560-849 | a round keeps the memory right if and only if this drafter drafted or nothing stale was left |
| Eagle3.RunHoldsIff | common/speculative.cpp:560-849 | over whole runs of batches, drafts and rejections, the memory is right if and only if no undrafted round follows a rejection by another token |
| Eagle3.StaleTokenStays | common/speculative.cpp:664-677 | the shortest run that fails: after a rejected draft, a round without one leaves the rejected token in the memory |
| Eagle3.AlwaysDrafted | common/speculative.cpp:707-849 | with a draft in every round it is always right |
| Eagle3Context.FindSpans | common/speculative.cpp:574-586 | the first and last batch index of each sequence |
| Eagle3Context.OfSlice | common/speculative.cpp:571-573 | tokens that stand together are the slice between these indices |
| Eagle3Context.Drafter.Process | common/speculative.cpp:560-705 | every sequence of a mixed batch writes its own pairs into its own memory, and the new batch is never larger than the old |
| Eagle3Context.Drafter.Accept | common/speculative.cpp:834-849 | the row at min(accepted, rows - 1) becomes the open boundary, of this sequence only |
| Eagle3Context.Drafter.Draft | common/speculative.cpp:707-832 | sequences drafted together, each sampled at its output row among those still drafting, get the drafts they would get alone, cleared below the minimum |
| Eagle3Context.OutputsInOrder | common/speculative.cpp:754-812 | the rows of a decoded batch, counted over the sequences that are in it, are those of their own last entries |
| Eagle3Draft.AloneKeeps | common/speculative.cpp:754-820 | a draft has at most max(1, n_max) tokens and only appends to the memory |
| Eagle3Draft.DraftLeavesSeed | common/speculative.cpp:718-742 | with the drafted positions removed, the seed is left |
| Eagle3Server.ServeTurn | src/llm_server/server_context.cpp:2625-2706 | a turn of drafts, removal, batch, verdicts and removal never fails, and leaves each sequence where it would be alone |
| Eagle3Server.Serve | src/llm_server/server_context.cpp:3293-3530 | so does every run of turns over any sequences |
| Eagle3Server.ServedHoldsIff | src/llm_server/server_context.cpp:3465-3530 | over any run from a fresh drafter the memory of a sequence is right if and only if its own rounds leave nothing stale |
| Mtp.ProcessKeeps | common/speculative.cpp:1386-1463 | after a batch the memory holds (token[p], h[p-1]) at every position |
| Mtp.ProcessSplit | common/speculative.cpp:1386-1463 | however a stream is cut into two batches, memory and pending row come out the same |
| Mtp.RoundKeeps | common/speculative.cpp:1351-1632 | every round keeps it so, drafted or not, accepted in full or in part |
| Mtp.RunKeeps | common/speculative.cpp:1351-1632 | over all runs |
| Mtp.RowsGive | common/speculative.cpp:1393-1414 | the shifted rows with the pending rows over them are each sequence's own |
| Mtp.MtpDrafter.ShiftRows | common/speculative.cpp:1393-1414 | the shift by one and the overwritten first rows, in place |
| Mtp.MtpDrafter.Process | common/speculative.cpp:1351-1466 | every sequence of a mixed batch writes its own tokens with its own shifted rows, also beside tokens of unknown sequences |
| Mtp.MtpDrafter.Accept | common/speculative.cpp:1619-1632 | the row at min(accepted, rows - 1) becomes the pending row |
| MtpServer.ServeTurn | src/llm_server/server_context.cpp:2625-2706 | a turn never fails, and leaves each sequence where it would be alone |
| MtpServer.Serve | src/llm_server/server_context.cpp:3293-3530 | after every run of turns over any sequences, each memory holds (token[p], h[p-1]) at every position |
| ReasoningBudget.HitIsMatch | common/reasoning_budget.cpp:12-37 | a hit means that the last tokens are the pattern |
| ReasoningBudget.HitsEveryOccurrenceIff | common/reasoning_budget.cpp:12-37 | the matcher hits every occurrence if and only if the first token of the pattern occurs only once in it |
| ReasoningBudget.StepKeeps | common/reasoning_budget.cpp:59-141 | every accept, force and reset keeps the bookkeeping of budget, matchers and forced position |
| ReasoningBudget.RunKeeps | common/reasoning_budget.cpp:59-172 | so does every run; while counting, remaining plus tokens counted is the budget |
| ReasoningBudget.NewSamplerKeeps | common/reasoning_budget.cpp:207-232 | so does every run of a new sampler, over exactly the tokens accepted |
| ReasoningBudget.BlockBegins | common/reasoning_budget.cpp:63-77 | a block begins only at a start tag, and at every one if its first token occurs once |
| ReasoningBudget.BlockEnds | common/reasoning_budget.cpp:78-85 | a block ends by itself only at an end tag seen inside it |
| ReasoningBudget.BlockCounts | common/reasoning_budget.cpp:87-114 | a block without an end tag counts exactly the budget, then forces or waits for a complete character |
| ReasoningBudget.ForcesAtCompleteIff | common/reasoning_budget.cpp:87-112 | with the budget used up, forcing begins exactly where the text is complete if and only if the token's piece meets that condition |
| ReasoningBudget.ForcesOutsideCharacters | common/reasoning_budget.cpp:87-112 | behind a piece that is not empty, forcing never begins inside a character |
| ReasoningBudget.ForcingMisplaced | common/reasoning_budget.cpp:87-112 | a piece that ends a character and delays forcing, and an empty piece behind which it begins inside one |
| ReasoningBudget.ForcingLasts | common/reasoning_budget.cpp:117-163 | forcing lasts exactly max(1, forced) tokens and leaves one token its logit at each |
| ReasoningBudget.ForcedAreEmitted | common/reasoning_budget.cpp:143-163 | whoever samples only tokens that keep their logits emits the forced tokens in order |
| ReasoningBudget.TokenMatcher.Advance | common/reasoning_budget.cpp:16-34 | the matcher in place |
| ReasoningBudget.Budget.AcceptToken | common/reasoning_budget.cpp:59-141 | the state machine in place, with both matchers |
| ReasoningBudget.Budget.Apply | common/reasoning_budget.cpp:143-163 | exactly the tokens other than the forced one are masked |
| ReasoningBudget.Budget.ForceNow | common/reasoning_budget.cpp:251-270 | only a counting sampler is forced |
| Sampling.RoundShape | common/sampling.cpp:622-650 | a round emits between one token and one more than the draft, all but the last equal to the draft, stopping at the first mismatch |
| Sampling.RoundsAreSequential | common/sampling.cpp:622-650 | for any drafts, rounds emit the tokens and leave the sampler of sampling one token at a time |
| Sampling.SampledIsAllowed | common/sampling.cpp:538-620 | whether the grammar masks first or checks afterwards, the sampled token is allowed by grammar and budget |
| Sampling.GenSampler.SampleToken | common/sampling.cpp:538-620 | sampling with budget, grammar, rejection and resampling |
| Sampling.GenSampler.AcceptToken | common/sampling.cpp:444-465 | accepting, with the grammar's part decided before the budget moves |
| Sampling.GenSampler.SampleAndAcceptN | common/sampling.cpp:622-650 | the loop emits a piece of the sequential run |
| NgramCache.CountsDetermine | common/ngram_cache.h:57-61 | a cache without empty entries is determined by its counts |
| NgramCache.TotalIsOccurrences | common/ngram_cache.cpp:20-39 | without null tokens the count of a token after an n-gram is the number of positions where it follows |
| NgramCache.CountCache.Update | common/ngram_cache.cpp:12-52 | an update adds exactly the new positions, for all sizes |
| NgramCache.UpdateExtends | common/ngram_cache.cpp:12-52 | one update turns the cache of the shorter input into that of the longer one |
| NgramCache.UpdateInChunks | common/ngram_cache.h:64-73 | appending in any chunks gives the very cache that is built at once |
| NgramCache.CountCache.Merge | common/ngram_cache.cpp:260-285 | merging adds the counts pointwise |
| NgramCache.Save | common/ngram_cache.cpp:200-220 | whatever the order of the entries, loading the file gives the cache back |
| NgramCache.Load | common/ngram_cache.cpp:222-258 | the reading loops, with the cases that abort |
| Fit.GuessInRange | common/fit.cpp:582-584 | the interpolated step lies in [0, delta), so its conversion to 32 bits loses nothing |
| Fit.FalsePosition | common/fit.cpp:579-604 | the search ends with a count that fits and whose successor does not |
| Fit.FillDevices | common/fit.cpp:563-615 | every device fits its target, has all layers left or one more was over target, and the total is within the layers |
| Fit.SettledIsGreatest | common/fit.cpp:551-604 | if memory grows with layers, every device has the greatest count that fits |
| Fit.SetLayers | common/fit.cpp:447-453 | the total and the split over devices are written out |
| Fit.OverridesAscend | common/fit.cpp:459-476 | the overrides name layers of the devices, each once and in the order of the model |
| Fit.SetNglTensorSplitTbo | common/fit.cpp:443-481 | both arrays are written in place, the overrides up to their end mark, or as far as an exception lets them |
| Fit.DenseWritten | common/fit.cpp:459-480 | without partial layers there is only the end mark |

## Left out

- The open branches of `build_min_max_int` (only a minimum or only a maximum), and bounds at plus or minus the largest
  64-bit integer.
- The text of grammars, but for the classes of `NotStrings` and the classes and literals of `PegUntilText`: other rules
  are modelled as trees, without quoting, spaces and rule names, and the reader's limit on counted repetitions.
- NotStrings.BuildNotStrings: bytes above 127 are ordered as unsigned; with one of them the rule is not read as printed
  in any order. Which keys with escapes are accepted is not described.
- Other schema features: references, string formats, patterns, unions, primitive rules, error lists.
- The schemas of properties: `ObjectRule` takes each key-value rule as one terminal.
- IntRange.BuildMinMaxInt: the trailing space rule of integers is not part of it.
- Printing grammars from PEG parsers, except the pattern that excludes delimiters; parsing of character-class text;
  JSON serialization of arenas; debug output; Python rules; the JSON member helper; triggers of rules.
- PegStreaming.RunKeeps: excludes the start, end and until parsers, which look at the ends of the input, and lookahead
  at anything but a fixed number of characters.
- PegUntil.GrammarCoversUntilIff: only that the grammar covers the scan; the grammar accepts more.
- PegUntilText.PrintUntil: the characters of a class are printed in any order.
- PegTrie.Trie.Collect: the order of the children of a node is not modelled.
- Leftmost choice and captures of std::regex: only the languages of patterns; which characters an atom matches is a
  parameter, so anchors, assertions and back references are not covered, nor quantifiers on a quantified atom other than
  the reluctant mark (`{0}?` only by `RegexText.ReluctantNothing`).
- RegexReader.Reader.ReadClass: a backslash at the very end of an open class, where the source reads past the end of
  the pattern, is an error here; std::regex refuses such a pattern before.
- RegexText.TransformsWritten: an empty alternative, which makes a loop bound of the source wrap around, is a failure.
- RegexPartial.Complete: the converse is not claimed; the new pattern accepts more.
- Encoding of features in chunks, draft-side samplers and probabilities, statistics, the shared-memory and chained MTP
  heads, DFlash, the other drafters, and the choice among several drafters.
- Eagle3.RunHoldsIff: a stream starts at position zero and is extended at its end; shifted or shared contexts are not
  modelled.
- MtpServer.Serve: drafting itself is described by what it leaves in the memory, and is removed (`Mtp.AfterDraft`).
- Eagle3Server.Serve: contexts that restore checkpoints instead of removing positions, and reuse of a restored draft.
- Sampling.GenSampler.SampleToken: the ring buffer of previous tokens is an unbounded list.
- Time measurement and logging of the budget sampler; cloning is copying its state.
- NgramCache.Save: a file is its 32-bit words; byte order, partial words and counts beyond 32 bits are not modelled.
- Drafting from n-gram caches.
- Fit.SetNglTensorSplitTbo: the text of an override's pattern is its layer and its fraction.
- Mtp.MtpDrafter.Process: what the draft context does with tokens of unknown sequences is a parameter.
- Fit.FillDevices: mixture-of-experts models, and the later steps of the fitting; that a device
  without layers fits, and depends only on later devices, is assumed of the measurement.
