# Verified model of the support agent

A Dafny model of the six hand-written pieces of the support agent that hold state, loops or arithmetic:
the agent graph with its human approval gate, the PII redaction passes, hybrid retrieval, the semantic
cache, the SLA agent and the MCP client. What comes from outside the code (the language model, the tool
servers, Redis, Postgres, embeddings, clocks) is a parameter or an oracle, so each theorem holds for every
behaviour of it. `dafny verify dfyconfig.toml` checks the whole project.

## How it is built

| files | what they model |
|---|---|
| `AgentGraph`, `AgentGraphRuns`, `AgentGraphTrace` | nodes, edges and reducers as a step machine; what whole runs guarantee; runs told step by step, and streams that pause |
| `SupportSystem`, `SupportSystemFacts`, `DecisionRaces`, `SupportApi` | turns, checkpoints, the approval queue and decisions, interleaved in every way; the two endpoints as methods |
| `Rendering`, `Regex`, `Redaction`, `RedactionFacts`, `PiiRules`, `PiiLanguages`, `EngineChoice`, `Luhn`, `CardRule`, `HiddenCards` | a backtracking matcher with word boundaries, scan-and-replace, the seven rules, what they match in plain words and which of several matches is reported, the card checksum, and what its filter leaves |
| `Scoring`, `Corpus`, `Bm25`, `Bm25Facts`, `Vectors`, `StableSort`, `HybridSearch`, `KnowledgeBase` | both indexes, fusion, truncation, re-scoring and the two sorts |
| `SemanticCache` | the batched scan and the stored entries |
| `SlaAgent`, `SlaFailures` | sweeps and the cooldown map; sweeps cut short by a failing sink |
| `McpClient`, `McpCalls`, `ToolTraffic`, `StdioTransport` | ids, retries, discovery and registry; interleaved calls; the executor on top of the client; the pipe protocol |

Pure code is modelled by functions, code that updates fields or runs loops by classes and methods proved
against those functions. Scores are exact reals: the logarithm is any growing function that is zero at
one, the square root any nonnegative root, the rounding of stored embeddings to 32 bits any function. Character classes of the regex engine are a parameter that must
agree with ASCII on `\w` and `\d`, and in which a digit is a word character, no blank, and has a value.

What is assumed of other systems, and of nothing else: the graph runtime pauses before every executor step,
a run started with no input goes on from the thread's checkpoint and is exempt from the pause for its first
step only, and a checkpoint is written after every step; `SCAN` returns every key that is there from the
start of a whole scan to its end; a child process answers the lines of its input in order, one line each;
clocks do not run backwards.

## Where the code and its own words differ

- The verification loop is said to end "up to a cap" (app/agents/graph.py:10). A success resets the retry
  counter, so success followed by a FAIL verdict repeats for ever (`SuccessLoop`); a cap on all runs exists
  only if not even one attempt is configured (`RunsBounded`), and with a cap of one even runs without any
  success are unbounded (`ZeroSuccessRunsBounded`).
- The comment at app/agents/graph.py:99-105 says that calls to tools that are not gated are resumed at once.
  Nothing does that. The gate predicate is false in every emitted state (`PendingCallInvariant`), because a
  planned call never leaves the executor, so turns never queue an approval (`TurnsNeverQueue`) and every
  answer that is audited, cached or sent is empty (`NoAnswerDelivered`).
- `decide_approval` reads the row and commits later (app/api/main.py:240-249): overlapping decisions on one
  row are both accepted. Two more can be committed exactly as long as two can be in flight, that is, while the
  row is undecided or two are in flight already (`CommittedTwice`).
- The card rule is greedy and its checksum filter comes after the match (app/security/pii_sanitizer.py:94-99).
  A refused match is skipped whole, with any valid number in it: every valid card number of 13 to 15 digits
  goes through untouched after a nonzero digit and a blank (`HiddenCard`, `HiddenExample`). The card pass leaves
  no number if and only if it refuses none of the matches it reports (`CardPassClears`), and a valid one is in
  the final text only if one stood clear of all that pass redacted, and exactly then where the later rules have
  nothing to redact (`ValidCardInOutput`).
- A cached entry returned twice by a scan counts twice towards the bound (app/cache/semantic_cache.py:57-72)
  and can keep a better entry from being seen (`RepeatCanHide`).
- A notification that raises abandons the rest of its sweep (app/agents/proactive_agent.py:92-103). Others wait
  at most one sweep for each failing approval within a cooldown (`FailuresDelay`). Behind p failing approvals
  and with sweeps g apart that means p sweeps if p g is less than the cooldown, and otherwise for ever
  (`EvenSweeps`).
- Three times as many chunks are fetched as asked for, to be re-ranked (app/tools/knowledge_base.py:144), but
  the list is cut before it is sorted again, so the surplus never matters (`AnswerIsTopChunks`).
- Ingesting a chunk id twice counts its terms twice (app/tools/knowledge_base.py:49-50): document
  frequencies are exact if and only if no document holding the term was overwritten (`IncrementsExact`), and
  a term can get a negative weight (`RepeatedKeyTurnsNegative`).
- A timeout on the stdio pipe is not a transport error (app/mcp/client.py:89): it is not retried, it leaves
  the discovery loop (`DiscoveryCrash`), and all later replies of that child go to the wrong request
  (`Pairing`, `TimeoutMispairs`).
- The SLA agent's description mentions re-opening threads (app/agents/proactive_agent.py:8-9). No code does it.

## Model

| member | source | states |
|---|---|---|
| AgentGraph.InvStep | app/agents/nodes.py:162-299 | every step of any node keeps the turn invariant: log grammar, both counters, error log, pending call and what each node may assume |
| AgentGraph.InvExecutor | app/agents/nodes.py:162-221 | an executor step, whatever the tool does, keeps that invariant |
| AgentGraph.ExecutorPending | app/agents/nodes.py:164-212 | the record appended extends the open plan with the next attempt of the same tool, and the call left pending is that record exactly when it is a retry |
| AgentGraph.ParseFlattens | app/agents/state.py:51-55 | cutting a log into plans loses nothing |
| AgentGraphRuns.InvExec | app/agents/graph.py:81-97 | the invariant holds after any number of steps of any turn on any thread |
| AgentGraphRuns.PathToExecutor | app/agents/graph.py:34-42 | the executor is reached after two steps, or after three through the photo inspection exactly if a photo came in and inspection is enabled; nothing is called before |
| AgentGraphRuns.EarlierTurnsKept | app/agents/state.py:51-55 | no turn alters the records and errors of earlier turns |
| AgentGraphRuns.ExecutionLogGrammar | app/agents/nodes.py:169-219 | a turn's log is a concatenation of plans with one tool and attempts 1, 2, ..., all but the last "retrying", only the final plan cut off; `retry_count`, the errors and the last result are functions of it |
| AgentGraphRuns.LogLanguage | app/agents/nodes.py:162-221 | a list of records is the log of some run if and only if it follows that grammar within the retry budget |
| AgentGraphRuns.RetriesCapped | app/agents/graph.py:45-56 | the retry counter never exceeds the cap |
| AgentGraphRuns.PendingCallInvariant | app/agents/graph.py:45-61 | in every emitted state a pending call is "retrying" with 1 <= attempt <= retry_count <= M and attempt < M; at the critic only with retry_count = M, after which the run ends; the gate predicate is never true |
| AgentGraphRuns.EpochLaw | app/agents/nodes.py:193-219 | since the last success at most one plan was given up, its M-1 retries stay spent, and the rest are those of the open plan |
| AgentGraphRuns.EpochCount | app/agents/nodes.py:169-219 | each success closes a stretch of at most M+1 calls |
| AgentGraphRuns.RunBound | app/agents/graph.py:45-56 | for M >= 2 a turn with s successful calls makes at most (s+1)(M+1) executor steps, however often it is resumed |
| AgentGraphRuns.RunTerminates | app/agents/graph.py:45-56 | such a turn has ended after 3 + 2(s+1)(M+1) steps of any kind |
| AgentGraphRuns.RunBoundIsTight | app/agents/graph.py:45-56 | for every M >= 2 and s a run meets the bound exactly and ends |
| AgentGraphRuns.SuccessLoop | app/agents/nodes.py:183 | for every n a run makes n successful calls and has not ended |
| AgentGraphRuns.RunsBounded | app/agents/graph.py:52-56 | all runs together are bounded if and only if M < 1 |
| AgentGraphRuns.ZeroSuccessRunsBounded | app/agents/graph.py:45-56 | runs without a success are bounded if and only if M is not 1 |
| AgentGraphRuns.PassedEnd | app/agents/nodes.py:273-307 | a final response exists exactly after a PASS verdict, and reports the last call that succeeded |
| AgentGraphRuns.UnsuccessfulEnd | app/agents/graph.py:52-56 | a turn that ends without an answer made exactly M+1 calls since its last success, one plan was given up, and the last call is still pending |
| AgentGraphTrace.WhyCalled | app/agents/graph.py:45-56 | in every run a tool is called only first in a turn, as the retry of the call just before with the repaired arguments, or right after a FAIL verdict that left nothing pending |
| AgentGraphTrace.CallMade | app/agents/nodes.py:164-212 | the record a call appends has the planned tool and arguments and attempt 1, or those of the call it repeats with the repaired arguments and the next attempt, and the outcome the tool server gave |
| AgentGraphTrace.AfterCall | app/agents/graph.py:45-49 | every call that succeeds, is given up or uses up the budget is followed by the critic; only the retry of a pending call goes on without a verdict |
| AgentGraphTrace.AfterVerdict | app/agents/graph.py:52-56 | a PASS ends the turn with an answer; a FAIL goes back to the executor while fewer than M retries are counted since the last success, else it ends the turn with none |
| AgentGraphTrace.LastVerdict | app/agents/nodes.py:287-299 | `verification_passed` is the last verdict of the turn, and absent before the first |
| AgentGraphTrace.IntentKept | app/agents/graph.py:33-42 | from the first step on the intent is the one the router found |
| AgentGraphTrace.FirstCallPasses | app/agents/graph.py:79-97 | if the first call returns and the verdict is PASS the turn ends there, with one record as planned and an answer about the sanitised result |
| AgentGraphTrace.ApprovedCall | app/api/main.py:251-256 | an approved call that returns and passes ends the turn with an answer about its result; if it fails the verdict the stream parks again before the next call, with no answer |
| AgentGraphTrace.StreamedUnique | app/api/main.py:251-256 | how far a stream comes is settled by what its nodes answer |
| AgentGraphTrace.StreamedFar | app/api/main.py:251-256 | if no node raises, a resumed stream that has not ended runs at least one step, to the next executor step or the end |
| AgentGraphTrace.GateOnPlan | app/agents/graph.py:59-61 | the gate predicate would hold of a fresh plan for one of the two gated tools, and of no other call |
| SupportSystem.GatedNext | app/api/main.py:125-258 | every event keeps calls made plus streams exempt from the pause within the approvals committed, thread by thread |
| SupportSystem.HumanGate | app/agents/graph.py:99-109 | however turns, decisions, resumes, failures and queue inserts interleave, a thread's executor steps never outnumber its committed approvals |
| SupportSystemFacts.GateReached | app/api/main.py:251-256 | the gate bound is exact: for every n and every retry cap some interleaving has n approvals and n calls |
| SupportSystemFacts.NoAnswerDelivered | app/api/main.py:157-200 | in every reachable state all audited, cached and sent answers are empty |
| SupportSystemFacts.TurnsNeverQueue | app/api/main.py:169-184 | every row of the approval queue was put there by the environment |
| SupportSystemFacts.RowDecisions | app/api/main.py:240-249 | a row is decided if and only if a decision on it was committed, and at most once if no two decisions on it overlap |
| SupportSystemFacts.OverlappingDecisions | app/api/main.py:240-249 | overlapping decisions can both be committed |
| DecisionRaces.BothCommit | app/api/main.py:240-249 | from any state, two decisions in flight on one row can both be committed |
| DecisionRaces.CommittedTwice | app/api/main.py:240-249 | from any point of any run, two more decisions on a row can be committed if and only if two can be in flight, and that if and only if the row is undecided or two are in flight already |
| SupportApi.SupportApi.RunTurn | app/api/main.py:125-200 | a turn that misses the cache runs no tool, queues nothing and leaves the thread where its nodes lead from a fresh turn, before the executor or at the first node that raises; if none raises it audits, stores and sends one empty answer, in this order and exactly up to the first of these that fails |
| SupportApi.SupportApi.DecideApproval | app/api/main.py:238-258 | unknown and decided rows change nothing; otherwise the decision is committed, and an approval drives the thread from its checkpoint through exactly one executor step as far as its nodes answer: to the end, the next executor step or the first node that raises; a rejection leaves all checkpoints |
| SupportApi.DroveFar | app/api/main.py:251-256 | if no node raises, an approved thread that has not ended is left at least one step further, before the executor or at the end |
| SupportApi.SupportApi.Gated | app/agents/graph.py:99-109 | the human gate holds of the object at all times |
| Regex.EngineAccepts | app/security/pii_sanitizer.py:23-31 | the backtracking matcher finds exactly the spans whose text is in the pattern's language |
| Regex.MatchEndCorrect | app/security/pii_sanitizer.py:23-31 | at a position it finds a match if and only if some text of the language stands there between word boundaries |
| Regex.SearchCorrect | app/security/pii_sanitizer.py:99 | a search finds the leftmost match, or none exists |
| Regex.StarOrder | app/security/pii_sanitizer.py:25 | greedy repetition tries its longest run first, lazy repetition its shortest |
| Rendering.Origin | app/security/pii_sanitizer.py:88-100 | a text that no tag can make or break and that stands between word boundaries after a pass stood so before it, clear of everything replaced |
| Rendering.Kept | app/security/pii_sanitizer.py:92-99 | conversely a text with word characters at both ends that is clear of everything replaced still stands between word boundaries |
| Redaction.ScanIsMaximal | app/security/pii_sanitizer.py:99 | every match overlaps one of the matches a scan reports |
| Redaction.Sub | app/security/pii_sanitizer.py:92-99 | the scanning loop replaces exactly the accepted matches, leaves refused ones in place and logs the former in order |
| Redaction.RegexPass | app/security/pii_sanitizer.py:88-100 | the loop over the rules is the composition of the passes, and its log their concatenation |
| RedactionFacts.PassClears | app/security/pii_sanitizer.py:92-99 | a pass whose callback refuses none of the reported matches leaves none of the texts its rule matches |
| RedactionFacts.PassLeaves | app/security/pii_sanitizer.py:92-99 | a text that begins and ends with a word character stands after a pass if and only if it stood before it clear of every span replaced |
| RedactionFacts.UncutIsRefused | app/security/pii_sanitizer.py:94-99 | a match that a pass cuts nothing of overlaps a reported match that the callback refused |
| RedactionFacts.RefusedIsUncut | app/security/pii_sanitizer.py:94-99 | a refused match stays in place whole |
| RedactionFacts.Survives | app/security/pii_sanitizer.py:88-100 | such a text stands in the output if and only if every pass finds it and cuts nothing of it |
| RedactionFacts.NothingCreated | app/security/pii_sanitizer.py:88-100 | whatever stands in the final text stood in the input |
| RedactionFacts.Complete | app/security/pii_sanitizer.py:88-100 | for any rules the tags cannot interfere with: after all passes no rule matches anywhere whose own pass refused none of its matches, as a rule without a filter never does |
| RedactionFacts.RoundTrip | app/security/pii_sanitizer.py:88-100 | undoing the passes in reverse with the logged values rebuilds any text that held none of the tags, also when the card pass leaves matches in place |
| PiiRules.PiiComplete | app/security/pii_sanitizer.py:23-31 | the output of the seven passes holds no SSN, e-mail address, phone number, API key, AWS key or IP address; and no card number if the card pass refuses none of the matches it reports, as is so with the checksum filter off |
| PiiRules.PiiNothingCreated | app/security/pii_sanitizer.py:23-31 | a match of any of the seven rules left in the output, a refused card number included, stood in the input |
| PiiRules.PiiRoundTrip | app/security/pii_sanitizer.py:89-100 | the log rebuilds every text without an opening bracket |
| PiiLanguages.EmailLanguage | app/security/pii_sanitizer.py:26 | the e-mail rule matches exactly local characters, an at sign, host characters, a dot and two letters or more |
| PiiLanguages.PhoneLanguage | app/security/pii_sanitizer.py:27 | the phone rule matches exactly 3, 3 and 4 digits, with an optional country code, brackets and separators |
| PiiLanguages.ApiKeyLanguage | app/security/pii_sanitizer.py:28 | the API key rule matches exactly sk, pk or rk, a hyphen and sixteen letters or digits or more |
| PiiLanguages.RuleLanguage | app/security/pii_sanitizer.py:23-31 | each of the seven rules, in its place, matches exactly the texts it is named for |
| PiiLanguages.NothingLeft | app/security/pii_sanitizer.py:88-100 | so no such text stands between word boundaries in the output, card numbers excepted while the checksum filter is on |
| PiiLanguages.AloneRedacted | app/security/pii_sanitizer.py:88-100 | a text that one rule matches as a whole, and no earlier one anywhere, becomes `[REDACTED_` and the name of the rule, with one log entry that holds it |
| PiiLanguages.SsnRedacted | app/security/pii_sanitizer.py:88-100 | every SSN on its own becomes `[REDACTED_SSN]` |
| PiiLanguages.JaneRedacted | app/security/pii_sanitizer.py:88-100 | an e-mail address becomes `[REDACTED_EMAIL]`, logged once |
| EngineChoice.EmailMatchLongest | app/security/pii_sanitizer.py:26 | of the addresses that begin at one place the engine reports the longest |
| EngineChoice.CardMatchShortest | app/security/pii_sanitizer.py:25 | of the card numbers that begin at one place the engine reports the shortest, because the separators are matched lazily, and so it ends in a digit |
| PiiRules.SsnLanguage | app/security/pii_sanitizer.py:24 | the SSN rule matches exactly three, two and four digits joined by hyphens |
| PiiRules.AwsKeyLanguage | app/security/pii_sanitizer.py:29 | the AWS rule matches exactly AKIA and sixteen digits or capitals |
| PiiRules.IpLanguage | app/security/pii_sanitizer.py:30 | the IP rule matches exactly four groups of one to three digits joined by dots |
| CardRule.CardLanguage | app/security/pii_sanitizer.py:25 | the card rule matches exactly the texts of digits, blanks and hyphens that begin with a digit and have 13 to 16 of them |
| CardRule.CardGuardNeverFires | app/security/pii_sanitizer.py:76-77 | what the card rule matches has 13 to 16 digits, so in the pass the length check never decides |
| CardRule.LeftOnesOverlapRefused | app/security/pii_sanitizer.py:94-99 | every card match left after the card pass stood in its input, clear of all redacted spans, and overlapped a reported match that the checksum refused |
| CardRule.ClearOnesAreLeft | app/security/pii_sanitizer.py:94-99 | every card match clear of the redacted spans is left, up to separators at its end |
| CardRule.CardPassClears | app/security/pii_sanitizer.py:92-99 | the card pass leaves no card match if and only if the checksum refuses none of the matches it reports |
| CardRule.ValidCardLeft | app/security/pii_sanitizer.py:92-99 | a number that passes the checksum is left after the card pass if and only if one stood in its input clear of all redacted spans |
| CardRule.FinalCardsWereLeft | app/security/pii_sanitizer.py:88-100 | a card match in the final text was left by the card pass, where it overlapped a refused match |
| CardRule.OutputHasNoCard | app/security/pii_sanitizer.py:88-100 | the final text holds no card match if the card pass refuses nothing it reports, and only then where the later rules find nothing |
| CardRule.ValidCardInOutput | app/security/pii_sanitizer.py:88-100 | the final text holds a number that passes the checksum only if one stood in the card pass's input clear of all it redacted, and exactly then where the later rules find nothing |
| CardRule.OutputHasCard | app/security/pii_sanitizer.py:88-100 | the final text holds a card match if and only if some number is found by all seven passes and cut into by none |
| HiddenCards.PrefixedCardPass | app/security/pii_sanitizer.py:92-99 | of a digit, a blank and a valid number of 13 to 15 digits the card pass redacts everything if the digit is zero and nothing otherwise |
| HiddenCards.HiddenCard | app/security/pii_sanitizer.py:88-100 | with a nonzero digit all seven passes return such a text unchanged, the valid number in it |
| HiddenCards.HiddenExample | app/security/pii_sanitizer.py:88-100 | the text "1 4222222222222" is returned unchanged and holds a valid card number |
| Luhn.LuhnCheck | app/security/pii_sanitizer.py:74-86 | the loop, whose doubling depends on the parity of the length, computes the right-to-left check of ISO/IEC 7812-1 Annex B |
| Luhn.SingleDigitError | app/security/pii_sanitizer.py:74-86 | changing any one digit of an accepted number makes it rejected |
| Luhn.AdjacentSwap | app/security/pii_sanitizer.py:74-86 | swapping two neighbours of an accepted number goes unnoticed if and only if they are equal or 0 and 9 |
| Luhn.CheckDigit | app/security/pii_sanitizer.py:74-86 | every payload of at least 12 digits has exactly one check digit |
| Luhn.LeadingZeros | app/security/pii_sanitizer.py:75-86 | leading zeros never change the verdict on 13 or more digits |
| Corpus.TokensAreWords | app/tools/knowledge_base.py:21-25 | every token is a nonempty word in lower case |
| Corpus.TokensSplit | app/tools/knowledge_base.py:21-25 | a separator splits tokenisation: text on one side never changes the tokens of the other |
| Corpus.TokensFold | app/tools/knowledge_base.py:21-25 | the case of letters does not matter |
| Corpus.TokensOfWord | app/tools/knowledge_base.py:21-25 | a word in lower case is its own only token |
| Corpus.TokensExample | app/tools/knowledge_base.py:21-25 | apostrophes and digits belong to words, hyphens do not |
| Corpus.TokensRoundTrip | app/tools/knowledge_base.py:21-25 | the tokens of a text, written out with blanks, have the same tokens |
| Corpus.StoredAsIs | app/tools/knowledge_base.py:46-48 | with distinct ids the index stores exactly the documents added, in order |
| Corpus.StoredLast | app/tools/knowledge_base.py:46-48 | under every id stands what was added last |
| Corpus.StoredOrder | app/tools/knowledge_base.py:46-48 | every id is listed once, in the order of first additions |
| Corpus.MeanLaw | app/tools/knowledge_base.py:51 | the mean length is 0 of nothing, and another document adds its length to the total |
| Corpus.IncrementsExact | app/tools/knowledge_base.py:49-50 | counting at every addition gives the true document frequency if and only if no addition overwrote a document with the term, and never less |
| Bm25.Increment | app/tools/knowledge_base.py:49-50 | the counting loop adds one under each term of the set and nothing else |
| Bm25.BM25SparseIndex.Add | app/tools/knowledge_base.py:46-51 | after any additions: the stored documents are the last ones per id, each frequency counts all additions, and the average length is the true mean |
| Bm25.BM25SparseIndex.Score | app/tools/knowledge_base.py:53-73 | the nested loops compute the normalised score of every document that shares a term with the query, and of no other |
| Bm25.BM25SparseIndex.ScoresFromScratch | app/tools/knowledge_base.py:46-73 | if no document holding a query term was overwritten, the index scores like one built from scratch over the stored documents |
| Bm25.BM25SparseIndex.FrequencyExact | app/tools/knowledge_base.py:46-51 | the index's frequency of a term is the true one if and only if no document with it was overwritten; always with distinct ids |
| Bm25Facts.LogArgumentLaw | app/tools/knowledge_base.py:66 | the argument of the logarithm is (n+1)/(df+1/2), positive, and above 1 if and only if df <= n |
| Bm25Facts.IdfSign | app/tools/knowledge_base.py:65-66 | a term's weight is positive if and only if its frequency is at most the number of documents |
| Bm25Facts.IdfRarer | app/tools/knowledge_base.py:65-66 | the rarer term weighs more, and only the rarer |
| Bm25Facts.ContributionRange | app/tools/knowledge_base.py:67-69 | for positive weight a contribution is positive and below idf(k1+1) |
| Bm25Facts.ContributionOrder | app/tools/knowledge_base.py:67-69 | a contribution grows strictly with the occurrences, does not grow with the length of the document, and falls with it strictly if k1 and b are positive |
| Bm25Facts.ContributionEquation | app/tools/knowledge_base.py:66-69 | the formula without quotients: contribution (f m + k1((1-b) m + b l)) = idf f (k1+1) m |
| Bm25Facts.OneAtMeanLength | app/tools/knowledge_base.py:66-69 | one occurrence in a document of mean length contributes the inverse frequency itself |
| Bm25Facts.MoreOccurrences | app/tools/knowledge_base.py:67-69 | more occurrences weigh strictly more if and only if something damps the count |
| Bm25Facts.RawScoreRange | app/tools/knowledge_base.py:59-69 | a raw score is positive exactly for a document that shares a term with the query, and below (k1+1) times the summed weight of the terms it contains |
| Bm25Facts.SparseScores | app/tools/knowledge_base.py:53-73 | exactly the documents sharing a query term are scored, in (0, 1], the best at 1 |
| Bm25Facts.SparseOrder | app/tools/knowledge_base.py:70-73 | normalisation keeps the order of the raw scores |
| Bm25Facts.IndexScores | app/tools/knowledge_base.py:46-73 | the index itself scores exactly the stored documents that share a query term, in (0, 1], the best at 1, if no document holding a query term was overwritten |
| Bm25Facts.IndexOrder | app/tools/knowledge_base.py:46-73 | and ranks them as a scoring from scratch does |
| Bm25Facts.NormaliseOrder | app/tools/knowledge_base.py:70-72 | dividing by the largest score keeps the order unless that score is negative, and then reverses it |
| Bm25Facts.NormaliseZero | app/tools/knowledge_base.py:70-72 | if the largest score is 0 the scores stay as they are |
| Bm25Facts.RepeatedKeyTurnsNegative | app/tools/knowledge_base.py:46-51 | a one-term document added twice under one id gives its term a negative weight |
| Vectors.CauchySchwarz | app/tools/knowledge_base.py:85-88 | the Cauchy-Schwarz inequality in any dimension |
| Vectors.CosineBounded | app/tools/knowledge_base.py:85-88 | cosine similarity lies in [-1, 1] for all vectors of one dimension, zero vectors included |
| Vectors.CosineSelf | app/cache/semantic_cache.py:43-46 | a vector has similarity 1 to itself, or 0 if it is zero |
| Vectors.CosineEquation | app/tools/knowledge_base.py:85-88 | similarity times both norms is the dot product, and it is 0 if a norm is |
| Vectors.CosineMultiple | app/tools/knowledge_base.py:85-88 | only directions count: a multiple of a vector is as similar, or as opposite if the factor is negative |
| Vectors.SimilarityAt | app/tools/knowledge_base.py:91 | under every id stands the similarity of the last document added with it |
| Vectors.DenseNormalised | app/tools/knowledge_base.py:90-95 | dense scores lie in [0, 1], with some score 1 if some similarity is positive and all 0 otherwise |
| Vectors.DenseOrder | app/tools/knowledge_base.py:90-95 | one dense score is below another if and only if its similarity is and the other is positive |
| Vectors.GetDocument | app/tools/knowledge_base.py:97-98 | the first document stored under an id, and none if and only if there is none |
| StableSort.SortCorrect | app/tools/knowledge_base.py:144-166 | the sort is a permutation, descending by key, equal keys in their old order |
| StableSort.SortUnique | app/tools/knowledge_base.py:144-166 | different elements have only one such order, so any stable sort computes it |
| HybridSearch.AnswerIsTopChunks | app/tools/knowledge_base.py:144-166 | for any number of candidates from top_k on, the answer is the stable re-sort of the top_k best fused chunks |
| HybridSearch.AnswerCharacterised | app/tools/knowledge_base.py:132-166 | exactly min(top_k, n) different chunks, no omitted chunk fused higher than a returned one, sorted by final score and then by fused rank, whatever order the id set is enumerated in |
| HybridSearch.AnswerTells | app/tools/knowledge_base.py:146-165 | every chunk carries the text and source of the first document stored under its id, its two scores, and as final score the share of the query's words it has, or the weighted sum without the reranker |
| HybridSearch.OneIndexAlone | app/tools/knowledge_base.py:139-144 | with one weight zero and the other positive, no omitted chunk scores higher than a returned one in the weighted index |
| HybridSearch.OverlapRange | app/tools/knowledge_base.py:109-116 | the overlap score lies in [0, 1], is 1 exactly if the passage has all words of a query that has some, and 0 exactly if it has none |
| HybridSearch.OverlapCounts | app/tools/knowledge_base.py:109-116 | the overlap is the number of different query words the passage has, per different word of the query |
| HybridSearch.RerankerOnlyPermutes | app/tools/knowledge_base.py:149-166 | with the reranker on the same chunks come back, and with it off they come in fused order |
| KnowledgeBase.ScorePairs | app/tools/knowledge_base.py:109-116 | one overlap score per passage, in order |
| KnowledgeBase.HybridKnowledgeBase.Ingest | app/tools/knowledge_base.py:127-130 | both indexes grow by the same document and stay in step |
| KnowledgeBase.HybridKnowledgeBase.Query | app/tools/knowledge_base.py:132-169 | the query returns the specified answer for some enumeration of the ids, with all the properties above |
| KnowledgeBase.HybridKnowledgeBase.DistinctIdsSparse | app/tools/knowledge_base.py:127-136 | with distinct ids the sparse scores of a query are those of all ingested texts from scratch: exactly the documents sharing a word, in (0, 1], the best at 1 |
| KnowledgeBase.HybridKnowledgeBase.DistinctIdsCount | app/tools/knowledge_base.py:132-143 | with distinct ids n is the number of ingested documents |
| SemanticCache.SemanticCache.Lookup | app/cache/semantic_cache.py:48-76 | the batched scan returns query, trajectory and similarity of the first most similar entry if it reaches the threshold, and nothing if and only if none does |
| SemanticCache.OutcomeUnique | app/cache/semantic_cache.py:63-76 | the entries compared determine the outcome |
| SemanticCache.OutcomeTells | app/cache/semantic_cache.py:63-76 | a hit is the query, the trajectory and the similarity of the first most similar entry, and there is none if and only if no entry reaches the threshold above -1 |
| SemanticCache.SeenCoverage | app/cache/semantic_cache.py:55-72 | a lookup compares every live entry of a whole scan, or a prefix of it with at least the bound's number of entries |
| SemanticCache.SeenWhole | app/cache/semantic_cache.py:55-72 | if the replies before the last do not fill the bound everything is compared, however much the last one holds; otherwise only the entries of some earlier replies are |
| SemanticCache.BatchingIrrelevant | app/cache/semantic_cache.py:55-72 | how the scan is cut into batches does not change the outcome if the loop gets to the last reply in both cuts |
| SemanticCache.RepeatIrrelevant | app/cache/semantic_cache.py:55-72 | two scans that first return the same entries in the same order, whatever they repeat, have the same outcome if everything is compared in both |
| SemanticCache.RepeatCanHide | app/cache/semantic_cache.py:70-72 | but a repeat counts towards the bound: with a bound of two, one repeat ends the scan before a better entry |
| SemanticCache.SemanticCache.Store | app/cache/semantic_cache.py:78-86 | storing writes one entry with the query, the trajectory and every coordinate of the embedding rounded to 32 bits, under its key, and then its expiry, so that it lives exactly ttl seconds; if the second fails the entry keeps the expiry of a living key or has none; other entries stay |
| SemanticCache.SemanticCache.StoredIsFound | app/cache/semantic_cache.py:48-86 | while a stored entry lives, a scan in which everything is compared gives a hit at least as similar as the query is to its own rounding, if that reaches the threshold; it is the stored query and trajectory if all other entries are less similar; above 1 no threshold is reached |
| SemanticCache.SemanticCache.StoredIsFoundExactly | app/cache/semantic_cache.py:43-86 | the similarity is 1 for a nonzero embedding that rounding leaves alone |
| SlaAgent.ProactiveSLAAgent.SweepStaleApprovals | app/agents/proactive_agent.py:80-104 | the loop over stale rows, cut short by a raising sink, leaves the map and the sink calls that the specification gives; every call is for an approval that the queue showed pending and past its deadline |
| SlaAgent.ProactiveSLAAgent.RunLoop | app/agents/proactive_agent.py:69-78 | the loop goes on after a failed sweep, so its state is that of all sweeps in turn |
| SlaAgent.StaleRows | app/agents/proactive_agent.py:81-88 | the query returns exactly the pending rows created before the cutoff |
| SlaAgent.EscalationsJustified | app/agents/proactive_agent.py:80-104 | in every run each call of the sink is made by a sweep that read the approval as pending and past its deadline |
| SlaAgent.EscalationsSpaced | app/agents/proactive_agent.py:92-97 | in every run, whatever fails, two escalations of one approval are at least the cooldown apart |
| SlaAgent.WindowBound | app/agents/proactive_agent.py:92-97 | any window of length L holds at most floor(L/C)+1 escalations of one approval |
| SlaAgent.WindowBoundTight | app/agents/proactive_agent.py:92-97 | for every L and C some run has exactly that many |
| SlaAgent.NextEscalation | app/agents/proactive_agent.py:69-103 | an approval that stays overdue while sweeps come at most G apart and no sink raises is escalated again at least C and less than C+G after the last time |
| SlaAgent.FirstEscalation | app/agents/proactive_agent.py:81-103 | a pending approval is first escalated by a sweep that reads the queue at most G after its deadline |
| SlaFailures.FailuresDelay | app/agents/proactive_agent.py:92-103 | if at most p other approvals ever make the sink raise and p+1 sweeps fall within one cooldown, an approval due and listed in all of them is escalated in one of them, at most p gaps late |
| SlaFailures.Starved | app/agents/proactive_agent.py:92-103 | over even sweeps the failing approvals in front take every sweep, one call each, as long as the sweeps are no more than they are, and for ever if as many gaps as there are of them span a cooldown |
| SlaFailures.EvenSweeps | app/agents/proactive_agent.py:92-103 | behind p failing approvals, with sweeps g apart, another one is escalated within n sweeps if and only if p < n and p g is less than the cooldown |
| McpClient.MCPToolClient.Call | app/mcp/client.py:131-140 | one to three requests with the next ids, all but the last met by transport failures, the result that of the last; one call at a time |
| McpClient.MCPToolClient.CallTool | app/mcp/client.py:175-183 | an unknown tool sends nothing; a known one is called, by `tools/call`, at the endpoint it was discovered at, in at most three requests |
| McpClient.CallTells | app/mcp/client.py:121-140 | a call gives a result, a protocol failure, a transport failure or another exception exactly for the replies that mean it; a transport failure only after three of them |
| McpClient.MCPToolClient.DiscoverTools | app/mcp/client.py:153-170 | the servers are asked for their listings in order, up to the first unexpected answer; the loop finds and registers what the specification gives, and every registered endpoint stays a known transport, crash or not |
| McpClient.MCPToolClient.InitializeAll | app/mcp/client.py:142-151 | the servers are greeted in order, in at most three requests each, up to the first whose answer is an unexpected exception; it is cut short if and only if there is one, and other failures hide no server |
| McpClient.MCPToolClient.constructor | app/mcp/client.py:104-112 | the transports are the given endpoints and commands, each once |
| McpClient.IdsIncrease | app/mcp/client.py:42-47 | every request, retries included, has a larger id than the ones before (JSON-RPC 2.0 section 4); read off the numbering that every method of the client keeps |
| McpCalls.ConcurrentCalls | app/mcp/client.py:114-140 | however calls interleave, ids grow over all of them, each sends at most three requests, all to its own endpoint, and a finished one has the result and number of requests of a call that met the same outcomes alone |
| McpClient.DiscoverBounds | app/mcp/client.py:153-170 | whichever servers fail, discovery sends at most three requests per server and finds tools of asked servers only |
| McpClient.NamedUpTo | app/mcp/client.py:161-169 | the tools of a listing are found in order up to the first without a name |
| McpClient.DiscoveryIsolatesFailures | app/mcp/client.py:156-169 | unless something unexpected is raised, every tool listed by a server that answers is discovered, whatever the others do |
| McpClient.DiscoveryCrash | app/mcp/client.py:156-169 | discovery is cut short if and only if some server's answer is neither a listing with names nor one of the two expected failures |
| McpClient.RegisterLast | app/mcp/client.py:168 | a name is bound to the last tool discovered under it, or as before if there is none |
| ToolTraffic.DriveIsRun | app/agents/nodes.py:162-188 | a run whose tool calls go through the client is one of the runs of the graph |
| ToolTraffic.PlanRequests | app/agents/nodes.py:169-203 | one plan sends at most 3 max(M, 1) requests |
| ToolTraffic.TurnRequests | app/mcp/client.py:131-140 | a turn with s successful calls sends at most 3(s+1)(M+1) requests |
| ToolTraffic.TurnRequestsTight | app/agents/nodes.py:169-219 | for every M >= 2 and s some servers and some turn with s successes send exactly that many |
| ToolTraffic.RecordsAreAnswers | app/agents/nodes.py:173-205 | a record of a turn is a success if and only if its tool is registered, the client answered the call with a result and the sanitizer took it; then it holds that result, and otherwise the message of the exception; and an unregistered tool costs no request |
| StdioTransport.InvNext | app/mcp/client.py:73-93 | every step keeps the pipes a queue of what was written and not read, with the lock holder's line last: writes, answers, exits, reads, and a sender that fails or is cancelled before or after it has written |
| StdioTransport.Pairing | app/mcp/client.py:82-93 | for any number of callers and restarts a reply belongs to its own request if and only if no earlier read of the same child was given up; otherwise it belongs to an older one |
| StdioTransport.ReadPaired | app/mcp/client.py:89-93 | after d reads were given up, a read returns the answer to the line written d lines before the reader's own |
| StdioTransport.PatientRuns | app/mcp/client.py:82-93 | without timeouts or cancellations lines written minus lines read is 0 or 1 while a child runs, 1 exactly during a send, and every reply is its sender's own |
| StdioTransport.TimeoutMispairs | app/mcp/client.py:89-93 | one timeout hands the next sender an answer to somebody else's request |
| StdioTransport.RestartHeals | app/mcp/client.py:73-93 | after an exit that is noticed the next send starts a new child and gets its own answer, however many reads of the old one were given up |
| StdioTransport.UnnoticedExit | app/mcp/client.py:73-93 | an exit that is not noticed costs the next send its answer, whether its write succeeds or not, and the lock is let go |
| StdioTransport.AnswerOutlivesExit | app/mcp/client.py:89-93 | what a child wrote before it exited is still read |
| StdioTransport.CancelledEarly | app/mcp/client.py:82-85 | a send given up before it has written leaves the pipes and the pairing alone |

## Left out

- RunTurn: runs without interruption by other requests; all interleavings are in `SupportSystem`, whose runs contain this one.
- BM25SparseIndex: constants outside 0 <= k1 and 0 <= b <= 1 are excluded; with them the code can divide by zero.
- Floating-point rounding in scores, similarities and normalisation.
- The entity-recognition pass and the recursion over payloads in the sanitizer: the first depends on a trained model, the second applies the sanitizer to each string it reaches.
- Closing the MCP client and starting and stopping the background agent: no state of their own.
- Messages, latency metrics, token counts and identifiers: no property depends on them.
- Order rules, refund thresholds, image classification, the mock MCP server, streaming and HTTP plumbing, telemetry and configuration.
- The graph runtime, Postgres and Redis themselves: only the assumptions listed above are used.
