# NovelGenerator core, modelled in Dafny

This project models part of the core of NovelGenerator, a Python toolkit
that drives a language model to plan and write Chinese web novels. It
covers the modules listed below, which make their decisions without the
language model: they select, score, check, schedule, format and keep
records. The core files that are not modelled are named under
"## Left out".

- **Recency-avoiding variant engine** (`DiversityEnhancer`). It keeps the
  story-element catalogues and a generation history capped at 100 records.
  Each new variant draws a structure, an archetype and a world flavour
  from outside the values used in the last N records; there is no
  fallback when a catalogue is exhausted. It also provides the frequency
  analysis, recommendations and the tool dispatch.
- **Enhanced story generator** (`EnhancedStoryGenerator`). It selects
  innovation factors and plot twists, cleans language-model names into
  2-5 ideograph names, makes composite names unique with a numeric
  counter, picks a technique application for a chapter, derives a story
  configuration and dispatches the tool's actions.
- **Dialogue writer** (`DialogueWriter`). It holds the directed emotion
  graph and its breadth-first shortest-path search, the emotional
  progression with its alias and fallback rules, and `add_custom_path`.
  It also covers the dialogue plan, the speaker/emotion/action assignment
  per line, the parsing of a free-form reply into lines, and the tool
  dispatch.

The planning tools around that core are modelled as well:

- **Story planner** (`StoryPlanner`). It covers the three-act and
  hero's-journey plot points, the chapter-range test, chapter tension,
  pacing and mood, the chapter plan, the outline and the tool dispatch.
- **Story-arc manager** (`ArcManager`). It covers the chapter
  distributions of the main arc and of subplots, the arc dictionary, the
  pairwise intersection report and the tool dispatch.
- **Timeline manager** (`TimelineManager`). It covers the timestamp sort
  key, the clash test and the in-timeline and cross-timeline clash
  reports, the main, character and world timelines, `add_event` with its
  stable re-sort, the event queries and the tool dispatch.
- **Consistency checkers** (`Consistency`, `ToolsConsistency`,
  `AnalysisConsistency`). The two checkers share the issue and report
  records, the severity weights and score, the tallies, the fixed
  recommendations and the extraction of characters, world setting and
  timeline events into the checker's state (`Consistency`). The tool
  layer's checker (`ToolsConsistency`) covers character completeness and
  cultivation levels, links between consecutive plot points, the magic
  system and geography, clashing events, the language model's list of
  logic problems, the chapter check and the tool dispatch. The analysis
  layer's checker (`AnalysisConsistency`) covers its own completeness
  rules, the one-letter-apart name similarity, the outline, world,
  timeline and logic rules, and its tool dispatch. Story data is a
  JSON-shaped value (`Json`), so data of the wrong shape raises the
  exception Python would raise.

The infrastructure and output modules:

- **Tool registry** (`ToolRegistry`). It covers registration under a
  name, a category and aliases, unregistration, lookup through aliases,
  listing, sorted categories, search, declared dependencies, the
  per-name execution statistics and the registry statistics. Its
  invariants (every tool filed under its category, every alias pointing
  at a tool, statistics for every tool) are proved to survive every
  operation.
- **Tool base classes** (`BaseTools`). It covers `validate_parameters`,
  `safe_execute`, the plain tool registry of `core/base_tools.py` with
  its three hook lists, `list_tools`, `execute_tool`, the tool builder,
  and the `retry` and `rate_limit` decorators. The rate limiter is proved
  to admit at most its limit of calls in the minute before any call.
- **Cache manager** (`CacheManager`). It covers namespaced caches of
  timestamped values with a default lifetime of an hour, deletion,
  clearing of expired entries, the periodic clean-up, the statistics and
  the `cached` wrapper.
- **Security** (`SecurityConfig`, `SecurityManager`). `SecurityConfig`
  covers the recursive masking of sensitive fields. `SecurityManager`
  covers the failed-attempt counter that blocks an IP, the rate-limit
  middleware and input sanitising.
- **Quality analyzer** (`QualityAnalyzer`). It covers the five
  rule-based scorers (plot, characters, writing, world, pacing), the
  report with strengths, weaknesses and recommendations, and the tool's
  focus filter.
- **Plain-text formatter** (`SaveTxt`). It covers the 80-column
  paragraph wrap, the truncation, the chapter-body re-indentation, the
  description, character, outline and chapter sections, the safe file
  title and the assembly of the whole text.
- **Language-model client, without the network** (`LlmClient`). It
  covers `PromptTemplate.format` with its required variables, the
  per-session conversation history with its `max_history` cut, the
  function-call table with its `json.dumps` error reply, the message
  list that `generate_text` and `stream_generate` send, and the history
  they record.
- **Configuration manager** (`ConfigManager`). It covers which loader
  reads which file (by `Path.suffix` as Python 3.12 computes it), the
  `.env` line format with the environment on top, the order in which
  `load_config` reads and merges files, and the cache with reload,
  `set_config`, schema fallback and the module-level manager's schemas.

Shared modules hold the `Result`/`Option` wrappers (`Wrappers`; Python
exceptions become `Raise(exc)` with the exception class),
sequence helpers (`Seqs`, including a stable sort by key), Python's
insertion-ordered dictionary (`Dicts`), string helpers that mirror Python's `strip`,
`split`, `join` and `str(int)` (`Text`), Python's `int()` truncation
of reals (`PyNum`), and Python's ordering of strings with a stable sort
by a string key (`StrOrder`).

Conventions used throughout:

- Randomness is an injected draw: `random.choice(xs)` is `xs[d % |xs|]`
  for a draw `d`, and `random.sample` is a sequence of such draws.
  Contracts therefore hold for every outcome.
- The language model's replies are parameters (a reply string, or a
  sequence of replies in call order).
- Clocks are parameters: integer or real seconds.
- Floating-point arithmetic on the randomization level is modelled with
  exact `real` and Python's truncating `int()`.

In modules/generation/diversity_enhancer.py, `generate_diverse_variant`
(lines 264-320) avoids recently used options through plain sets of names,
and the history is a list cut to its newest 50 records once it exceeds 100
(lines 389-404). `_calculate_diversity_score` (lines 445-467) calls
`bit_length()` on a float and therefore raises `AttributeError` for any
non-empty frequency map. The model reproduces that and invents no entropy
formula.

Behaviour of the code that the model reproduces and proves:

- `DialogueWriter._create_emotional_progression` with the goal "中性",
  "平常" or "自然" calls itself with the same arguments forever. Those
  aliases are successors in the graph but not keys, and they normalise
  to the start "neutral". The model gives `RecursionError`
  (`DialogueWriter.NeutralAliasGoalRecursesForever`).
- The dialogue tool's default goal "neutral" plans the one-element
  progression `["neutral"]`. The second phase then reads index 1, so
  every exchange with a speaker raises `IndexError`
  (`DialogueWriter.DefaultGoalFails`). The default empty `character_info`
  divides by zero (`DialogueWriter.DefaultExchangeFails`).
- `_clean_name`'s character class is written as two adjacent string
  literals. It deletes the ASCII double quote, the backtick, brackets,
  angle brackets, book-title marks and colons, but not the apostrophe.
- A plot outline whose factors name no narrative technique makes
  `random.choice([])` raise `IndexError`.
- A character timeline copies the main events that name the character.
  Clash detection compares every pair of stored timelines, so each such
  event is then reported as clashing with its own copy
  (`TimelineManager.CharacterTimelineEchoesMain`).
- `_parse_timestamp` raises `ValueError` for a timestamp that carries a
  marker but no plain number, such as "三月". `add_event` appends before
  it sorts, so the event stays in the timeline even though the call
  raises. A chapter range that starts with a dash ("-3") also raises
  `ValueError` (`TimelineManager.LeadingDashRaises`).
- `ToolRegistry.register` appends the name to its new category but never
  removes it from the old one. A tool re-registered under another
  category is therefore listed under both
  (`ToolRegistry.StaleCategoryListing`).
- `execute_tool` keeps the statistics under the name it was called by. A
  call through an alias gets its own statistics entry, and the
  dependencies declared for the tool the alias points at are not
  consulted (`ToolRegistry.AliasCallCountedApart`).
- The plain registry of `core/base_tools.py` lists a re-registered tool
  under its old category too, like `ToolRegistry.register`.
  After the re-registered tool is unregistered, listing its old category
  raises `KeyError` (`BaseTools.StaleListing`).
- A tool made by `ToolBuilder` is an `AsyncTool`, so `execute_tool`
  answers with `safe_execute`'s time-based id instead of the call's id
  (`BaseTools.ExecuteBuilt`).
- `retry` and `rate_limit` read `args[0]` to name the failing function.
  A function called without positional arguments therefore turns a
  failure, or a refusal, into `IndexError`. `retry(0)` raises `None`,
  which is a `TypeError` (`BaseTools.Retry`, `BaseTools.RateLimited`).
- `_truncate_text` with a maximum below 3 slices with a negative end, so
  it drops characters from the end instead of keeping a prefix
  (`SaveTxt.Truncate`).
- The writing scorer notes a total word target below 10000 but deducts
  nothing for it (`QualityAnalyzer.TextFrom`).
- The five scorers are capped at 70, 75, 80, 70 and 75, so the overall
  score never exceeds 74, the top recommendation ("from 85") is never
  given, and only the writing can be a strength
  (`QualityAnalyzer.AnalyzeCeiling`).
- An empty world setting misses all four required elements but is not
  sparse, so it scores 30 rather than 20.
- The metric names are Chinese. Focus areas written in English, as the
  tool's parameter description suggests, therefore keep no metric at all
  (`QualityAnalyzer.EnglishFocusKeepsNothing`).
- `validate_request_rate` admits every request, so the rate-limit
  middleware never records a failure and never blocks an IP
  (`SecurityManager.MiddlewareNeverBlocks`).
- The `cached` wrapper treats a stored `None` as a miss and recomputes
  it (`CacheManager.StoredNoneRecomputed`).
- `add_message` cuts the history with `[-max_history:]`. With a
  `max_history` of 0 that slice is the whole list, so nothing is ever
  dropped (`LlmClient.ZeroKeepsAll`).
- `load_config("")` reads no file: `Path(".yaml").suffix` is empty, so no
  loader handles `.yaml`, `.json` or `.env`. For the same reason a file
  named just `.env` is never read (`ConfigManager.PlanByExtension`,
  `ConfigManager.DotEnvUnread`).
- The `.env` loader returns `{}` when the file cannot be read, without
  the process environment (`ConfigManager.LoadEnv`).

## Model

| member | source | states |
|---|---|---|
| DiversityEnhancer.SelectVariant | modules/generation/diversity_enhancer.py:264-313 | chosen structure/archetype/flavour are outside their avoid-sets; raises IndexError exactly when a catalogue is fully excluded; conflict and tone from full catalogues; one unique element per category; pacing of the chosen structure |
| DiversityEnhancer.AvoidPlotsIgnored | modules/generation/diversity_enhancer.py:273-286 | the plot avoid-set never influences selection |
| DiversityEnhancer.EveryAvailableStructureReachable | modules/generation/diversity_enhancer.py:273-282 | every non-avoided structure is chosen by some draw |
| DiversityEnhancer.RecordGeneration | modules/generation/diversity_enhancer.py:389-404 | appends one record with the four elements, newest last; over 100 keeps the newest 50 |
| DiversityEnhancer.GenerateDiverseVariant | modules/generation/diversity_enhancer.py:264-320 | a raising selection leaves history unchanged; otherwise the variant is recorded |
| DiversityEnhancer.HistoryBounded | modules/generation/diversity_enhancer.py:402-404 | history length stays at most 100 |
| DiversityEnhancer.Window | modules/generation/diversity_enhancer.py:408-411 | last min(n,len) records for n > 0; whole history for 0; negative drops a prefix |
| DiversityEnhancer.CountFrequencies | modules/generation/diversity_enhancer.py:413-425 | each map is the exact tally of its projection and sums to the window length |
| DiversityEnhancer.FrequenciesSumToWindow | modules/generation/diversity_enhancer.py:408-425 | for positive count each map sums to min(count, len) |
| DiversityEnhancer.DiversityScore | modules/generation/diversity_enhancer.py:445-467 | 0.0 when all maps empty, AttributeError when any is non-empty |
| DiversityEnhancer.ScoreLoop | modules/generation/diversity_enhancer.py:448-467 | loop raises at first non-empty map |
| DiversityEnhancer.ReduceFor | modules/generation/diversity_enhancer.py:487-491 | one reduce recommendation iff top count exceeds half, naming first key with the top count |
| DiversityEnhancer.ReduceEach | modules/generation/diversity_enhancer.py:479-491 | per category: a reduce recommendation iff overused |
| DiversityEnhancer.UnusedStructures | modules/generation/diversity_enhancer.py:494-496 | exactly the catalogue structures absent from the map |
| DiversityEnhancer.Recommendations | modules/generation/diversity_enhancer.py:469-505 | reduce iff overused for each of the four categories; unused recommendation iff some structure unused, with 1..3 unused names |
| DiversityEnhancer.AnalyzeDiversity | modules/generation/diversity_enhancer.py:406-443 | returns iff window empty (else AttributeError), with recent_count = adjusted count |
| DiversityEnhancer.AnalyzeNonEmptyRaises | modules/generation/diversity_enhancer.py:406-467 | non-empty history with default count raises |
| DiversityEnhancer.AvoidanceConstraints | modules/generation/diversity_enhancer.py:507-532 | avoid-sets are exactly window value sets, required_uniqueness 0.8 |
| DiversityEnhancer.AvoidanceHonoured | modules/generation/diversity_enhancer.py:274-286 | variant under window constraints repeats no windowed structure/archetype/flavour |
| DiversityEnhancer.ExhaustedStructuresRaise | modules/generation/diversity_enhancer.py:274-282 | every structure used in window => IndexError |
| DiversityEnhancer.Execute | modules/generation/diversity_enhancer.py:577-626 | dispatch, defaults 修仙/10/5, error dict for unknown action, only generate_variant changes history |
| EnhancedStoryGenerator.InnovationPool | modules/generation/enhanced_story_generator.py:190-204 | six candidates: two technique names, then two character innovations, then two world innovations, each from its catalogue |
| EnhancedStoryGenerator.InnovationPoolDistinct | modules/generation/enhanced_story_generator.py:190-204 | the candidate pool never repeats an item, because the catalogues are pairwise disjoint |
| EnhancedStoryGenerator.SelectInnovationFactors | modules/generation/enhanced_story_generator.py:186-207 | a sample of min(int(2 + 4r), 6) pool items; a negative count raises ValueError |
| EnhancedStoryGenerator.InnovationFactorsDistinct | modules/generation/enhanced_story_generator.py:186-207 | the selected factors contain no duplicates |
| EnhancedStoryGenerator.InnovationFactorsInRange | modules/generation/enhanced_story_generator.py:188 | for a level in [0, 1] there are 2 to 6 factors |
| EnhancedStoryGenerator.SelectPlotTwists | modules/generation/enhanced_story_generator.py:510-526 | max(int(1 + 3r), 0) twists, each with variation, timing and impact from its own type's lists |
| EnhancedStoryGenerator.PlotTwistsInRange | modules/generation/enhanced_story_generator.py:512 | for a level in [0, 1] there are 1 to 4 twists |
| EnhancedStoryGenerator.CleanName | modules/generation/enhanced_story_generator.py:414-425 | the cleaned name is "" or 2 to 5 characters, all CJK unified ideographs |
| EnhancedStoryGenerator.CleanNameKeepsCleanNames | modules/generation/enhanced_story_generator.py:414-425 | a name of 2 to 5 ideographs is returned unchanged |
| EnhancedStoryGenerator.AcceptName | modules/generation/enhanced_story_generator.py:405-409 | a reply is accepted iff its cleaned name is non-empty and unused; an accepted name is recorded, otherwise the used set is unchanged |
| EnhancedStoryGenerator.NumberedInjective | modules/generation/enhanced_story_generator.py:441-443 | different counters give different numbered candidates |
| EnhancedStoryGenerator.UniqueName | modules/generation/enhanced_story_generator.py:438-446 | the result was not used before and is recorded; the original if free, else the original with the smallest free counter from 1 |
| EnhancedStoryGenerator.CompositeBase | modules/generation/enhanced_story_generator.py:429-436 | a surname, a prefix and a suffix taken from their lists |
| EnhancedStoryGenerator.CompositeName | modules/generation/enhanced_story_generator.py:427-446 | a fresh composite name: the base or the base with a counter, not used before and recorded |
| EnhancedStoryGenerator.FirstFree | modules/generation/enhanced_story_generator.py:369-409 | the first cleaned reply that is free, or none when no reply is free |
| EnhancedStoryGenerator.FirstFreeOrComposite | modules/generation/enhanced_story_generator.py:369-412 | the earliest free cleaned reply if any, else a fresh composite name; the result is always new and recorded |
| EnhancedStoryGenerator.UniqueCharacterName | modules/generation/enhanced_story_generator.py:359-412 | over the eight replies: the earliest accepted clean name, else a fresh composite; never a used name |
| EnhancedStoryGenerator.Lookup | modules/generation/enhanced_story_generator.py:602-605 | finds a technique's implementation list iff a technique of that name exists |
| EnhancedStoryGenerator.TechniqueNamesMatch | modules/generation/enhanced_story_generator.py:62-90 | the technique names listed are exactly the catalogue's keys |
| EnhancedStoryGenerator.TechniqueApplication | modules/generation/enhanced_story_generator.py:600-615 | "常规叙述" for a missing or unknown technique; otherwise one of its implementations, one suited to the chapter's position when any is |
| EnhancedStoryGenerator.ConfigUnder | modules/generation/enhanced_story_generator.py:159-184 | the variant is the selection under the constraints and is recorded in the history; a raising selection leaves the history alone; adherence is 0.7 + 0.3r |
| EnhancedStoryGenerator.ConfigAvoidsRecent | modules/generation/enhanced_story_generator.py:168-176 | with avoid_recent the variant repeats no structure, archetype or flavour of the last five records, and the factors are distinct |
| EnhancedStoryGenerator.ConfigInRange | modules/generation/enhanced_story_generator.py:176-183 | for a level in [0, 1]: 2 to 6 factors and adherence between 0.7 and 1.0 |
| EnhancedStoryGenerator.ChooseTechnique | modules/generation/enhanced_story_generator.py:462-463 | a factor that names a technique; IndexError iff no factor names one |
| EnhancedStoryGenerator.PlanOutline | modules/generation/enhanced_story_generator.py:449-508 | KeyError for an unknown structure; otherwise twists by level, and a technique from the factors or IndexError |
| EnhancedStoryGenerator.PlanChapter | modules/generation/enhanced_story_generator.py:528-598 | number 1 and title 第N章 by default, min(2, len) factors, the technique's application, and one unique element or IndexError when there are none |
| EnhancedStoryGenerator.RebuildConfig | modules/generation/enhanced_story_generator.py:724-732 | a missing variant raises TypeError; other keys default to the call's theme and level, no factors and adherence 0.7 |
| EnhancedStoryGenerator.ActionOf | modules/generation/enhanced_story_generator.py:702-831 | each of the five action names selects its action; any other name selects none |
| EnhancedStoryGenerator.ConfigAction | modules/generation/enhanced_story_generator.py:702-715 | a config output with the given theme, level and adherence 0.7 + 0.3r |
| EnhancedStoryGenerator.ConfigUseAction | modules/generation/enhanced_story_generator.py:717-765 | TypeError without a variant; an outline's technique is one of the configuration's factors; a character output for the main role |
| EnhancedStoryGenerator.ChapterAction | modules/generation/enhanced_story_generator.py:767-794 | TypeError without a variant; the chapter carries the outline's technique |
| EnhancedStoryGenerator.FullStoryAction | modules/generation/enhanced_story_generator.py:796-828 | a story output whose configuration has the given theme and level and whose outline has the given chapter count and a technique from the factors |
| EnhancedStoryGenerator.Execute | modules/generation/enhanced_story_generator.py:693-831 | error dicts for an unknown action, for character/outline without config and for chapter without all inputs; only config and full_story change the history |
| EnhancedStoryGenerator.ExecuteConfigDefaults | modules/generation/enhanced_story_generator.py:697-715 | theme 修仙 and level 0.8 unless given, with adherence 0.7 + 0.3r |
| EnhancedStoryGenerator.ExecuteOutlineDefaults | modules/generation/enhanced_story_generator.py:741-814 | 20 chapters unless given, and a technique from the configuration's factors |
| DialogueWriter.BfsSearch | modules/writing/dialogue_writer.py:231-250 | [] iff the end is unreachable; otherwise a walk from start to end along graph edges, repeating no node, and no walk between them is shorter |
| DialogueWriter.BfsLoopCorrect | modules/writing/dialogue_writer.py:237-250 | the queue loop keeps its invariants (queued paths are shortest walks, layered by length, closed frontier) and returns a shortest walk or [] when none exists |
| DialogueWriter.NormalizeEmotion | modules/writing/dialogue_writer.py:252-264 | an alias maps to its standard name; every other emotion, and every standard name, is returned unchanged |
| DialogueWriter.FallbackPath | modules/writing/dialogue_writer.py:266-290 | starts at start and ends at end; four nodes exactly for the four listed category pairs; otherwise through "neutral" when the graph has it, else just the two ends |
| DialogueWriter.DetourImpliesReachable | modules/writing/dialogue_writer.py:217-226 | the detour through "neutral" succeeds only when the direct search would have succeeded |
| DialogueWriter.SearchProgression | modules/writing/dialogue_writer.py:212-229 | for two distinct graph emotions: a shortest repetition-free walk when the goal is reachable, else the fallback path |
| DialogueWriter.EmotionalProgression | modules/writing/dialogue_writer.py:195-229 | [start] when start equals target; the graph search for two known emotions; [start, target] when the first unknown emotion is already its own standard name; an unknown alias restarts from its standard name (as the start even when it was the target), and RecursionError exactly when that repeats the same call |
| DialogueWriter.AliasGoalReplacesStart | modules/writing/dialogue_writer.py:204-209 | an unknown aliased goal replaces the start: the result is [standard name, goal] when the standard name is unknown too |
| DialogueWriter.AliasStartNormalised | modules/writing/dialogue_writer.py:204-209 | an unknown aliased start is replaced by its standard name |
| DialogueWriter.NeutralAliasGoalRecursesForever | modules/writing/dialogue_writer.py:40-74 | with the shipped graph the goal "中性" from "neutral" calls itself with the same arguments, so it raises RecursionError |
| DialogueWriter.AddEdge | modules/writing/dialogue_writer.py:295-306 | one round of add_custom_path: both nodes become keys and the edge is present |
| DialogueWriter.AddEdgeLists | modules/writing/dialogue_writer.py:298-306 | the source's list gains the target at the end unless already listed; every other list is unchanged |
| DialogueWriter.AddCustomPath | modules/writing/dialogue_writer.py:292-306 | the keys become the old keys plus every node of a path with at least one edge |
| DialogueWriter.AddCustomPathLinks | modules/writing/dialogue_writer.py:292-306 | after the call every consecutive pair of the path is an edge |
| DialogueWriter.AddCustomPathGrows | modules/writing/dialogue_writer.py:298-306 | existing successor lists only grow at the end, and no list gains a duplicate |
| DialogueWriter.AddCustomPathOnlyPath | modules/writing/dialogue_writer.py:292-306 | every edge afterwards was already present or is a consecutive pair of the path |
| DialogueWriter.LineCount | modules/writing/dialogue_writer.py:317-323 | short 4, long 15, anything else 8 |
| DialogueWriter.PlanDialogueStructure | modules/writing/dialogue_writer.py:308-335 | the line count for the length and the progression from "neutral" to the goal; raises iff the progression does; a reachable goal gets a shortest walk |
| DialogueWriter.Phase | modules/writing/dialogue_writer.py:353-359 | phase 0 iff i/total < 0.3, phase 2 iff i/total >= 0.7, else phase 1 |
| DialogueWriter.PhaseMonotone | modules/writing/dialogue_writer.py:353-359 | later lines never fall in an earlier phase |
| DialogueWriter.PhaseEnds | modules/writing/dialogue_writer.py:353-359 | from four lines on, the first line is in phase 0 and the last in phase 2 |
| DialogueWriter.LineEmotion | modules/writing/dialogue_writer.py:352-359 | "neutral" in phase 0, else progression[1] or progression[2]; IndexError iff that index is missing |
| DialogueWriter.ActionTag | modules/writing/dialogue_writer.py:387-398 | the gesture of one of the six listed emotions, "停顿" for any other |
| DialogueWriter.LineAt | modules/writing/dialogue_writer.py:349-381 | line i: speaker i mod n, the stripped reply, the phase's emotion, and an action tag iff i mod 3 = 0 |
| DialogueWriter.GenerateDialogueLines | modules/writing/dialogue_writer.py:337-385 | total_lines lines; ZeroDivisionError when there are lines but no speakers |
| DialogueWriter.GenerateDialogueLinesContent | modules/writing/dialogue_writer.py:349-381 | every line j has speaker j mod n, the stripped reply j, its phase's emotion and an action iff j mod 3 = 0 |
| DialogueWriter.GenerateDialogueLinesRaises | modules/writing/dialogue_writer.py:349-359 | with speakers, the lines raise iff some line's emotion index is missing, and then with IndexError |
| DialogueWriter.ShortProgressionRaises | modules/writing/dialogue_writer.py:353-359 | from four lines on, a progression shorter than three raises IndexError |
| DialogueWriter.NonEmptyFromMembers | modules/writing/dialogue_writer.py:416-417 | an index is kept exactly when its stripped line is non-empty |
| DialogueWriter.NonEmptyFromAscending | modules/writing/dialogue_writer.py:416-417 | the kept indices are in ascending order |
| DialogueWriter.SpeakerLabel | modules/writing/dialogue_writer.py:419 | "角色" followed by i mod 2 + 1 |
| DialogueWriter.ParseFromMatches | modules/writing/dialogue_writer.py:416-422 | one neutral line without action per non-empty stripped line, in order, labelled by its raw index |
| DialogueWriter.ParseDialogueResponseMatches | modules/writing/dialogue_writer.py:409-424 | one line per non-blank line of the reply, in order, with the stripped text, speaker by raw index parity, emotion "neutral" |
| DialogueWriter.WriteDialogueExchange | modules/writing/dialogue_writer.py:81-119 | the voices of new participants are analysed and cached first, and a failed analysis raises AttributeError with the earlier voices kept; after that the exchange echoes participants and goal, has the planned number of lines and counts their characters; RecursionError or ZeroDivisionError as the plan and the speakers dictate |
| DialogueWriter.Execute | modules/writing/dialogue_writer.py:488-516 | exchange and monologue are served with their defaults (participants 角色1 and 角色2, goal neutral, 200 words); only the exchange touches the voice cache; every other type, "exposition" included, is the error object |
| DialogueWriter.DefaultExchangeFails | modules/writing/dialogue_writer.py:494-502 | with every parameter at its default the exchange raises ZeroDivisionError |
| DialogueWriter.DefaultGoalFails | modules/writing/dialogue_writer.py:494-502 | when both default speakers' voices are cached or analyse cleanly against a non-empty character info, the default goal raises IndexError |
| DialogueWriter.DefaultSpeakersUnready | modules/writing/dialogue_writer.py:92-97 | when a default speaker's voice is neither cached nor analysable, the exchange raises AttributeError before any planning |
| DialogueWriter.AnalyzeCharacterVoice | modules/writing/dialogue_writer.py:173-193 | raises AttributeError exactly when the information or its background is not a dictionary; otherwise formal iff the personality's text holds 正式, advanced iff the background's holds 博学, long iff the personality's holds 文雅, restrained iff it holds 内敛, and the culture is the background's (通用 by default) |
| DialogueWriter.VoiceOf | modules/writing/dialogue_writer.py:95-97 | a participant's voice is the analysis of its entry ({} when absent); AttributeError when the character info is not a dictionary |
| DialogueWriter.CacheAll | modules/writing/dialogue_writer.py:93-97 | succeeds exactly when every key is cached or analyses cleanly; cached entries are kept, every new entry is its key's analysis, and on a raise some key's analysis raised |
| DialogueWriter.AnalyzeVoices | modules/writing/dialogue_writer.py:93-97 | succeeds exactly when every participant's voice is ready; only AttributeError is raised; old voices are kept and each new one is the analysis of a participant's entry |
| DialogueWriter.WriteCharacterMonologue | modules/writing/dialogue_writer.py:121-147 | the monologue is the model's reply; AttributeError when the character info is not a dictionary, TypeError when the word count is not an integer |
| StoryPlanner.IsChapterInRange | modules/plot/story_planner.py:418-427 | a dash-free string holds exactly the chapter it parses to; a one-dash string holds exactly the chapters between its two parsed ends, and nothing when an end does not parse; two or more dashes hold no chapter |
| StoryPlanner.RangeHolds | modules/plot/story_planner.py:418-423 | "a-b" written from non-negative bounds holds exactly the chapters a..b |
| StoryPlanner.SingleHolds | modules/plot/story_planner.py:424-425 | a single non-negative number holds exactly that chapter |
| StoryPlanner.NegativeUpperHoldsNothing | modules/plot/story_planner.py:420-427 | a range whose upper bound is negative reads "a--b", fails to unpack, and holds no chapter |
| StoryPlanner.TensionLevel | modules/plot/story_planner.py:429-438 | ZeroDivisionError exactly for zero chapters; otherwise, for a non-negative position, between 3 and 9, at most 5 in the first quarter, at least 5 in the middle half and at least 6 in the last quarter |
| StoryPlanner.PositionBands | modules/plot/story_planner.py:431-437 | for a chapter 1..n the position lies in (0, 1] and falls below 0.25 (0.75) exactly when 4c < n (4c < 3n) |
| StoryPlanner.Pacing | modules/plot/story_planner.py:440-451 | "fast" exactly when some given plot point has importance 8 or more, otherwise "medium"; ZeroDivisionError for zero chapters |
| StoryPlanner.Mood | modules/plot/story_planner.py:453-462 | 紧张刺激 iff tension ≥ 8, 严肃专注 iff 6-7, 轻松活泼 iff 4-5, 平静祥和 iff below 4 |
| StoryPlanner.ThreeActPoints | modules/plot/story_planner.py:220-284 | five points; opening "1-2", inciting incident "3-{n//4}", midpoint "{n//2}", climax "{3n//4}-{n-1}" with importance 10, resolution "{n}" with importance 7 |
| StoryPlanner.HeroJourneyPoints | modules/plot/story_planner.py:286-372 | seven stages; threshold "7-{n//3}", trials "{n//3+1}-{2n//3}", ordeal "{2n//3+1}-{n-2}" with importance 10, return "{n-1}-{n}" |
| StoryPlanner.PlotPoints | modules/plot/story_planner.py:205-218 | the hero's journey for "英雄之旅"; the three-act points for "三幕式" and for every other structure name |
| StoryPlanner.Relevant | modules/plot/story_planner.py:390-393 | a plot point is kept exactly when it is given and its range holds the chapter |
| StoryPlanner.ChapterPlan | modules/plot/story_planner.py:386-416 | n chapters for n > 0 (none otherwise), the k-th numbered k |
| StoryPlanner.PlanShape | modules/plot/story_planner.py:395-412 | every planned chapter has title 第c章 and tension 3..9; tension ≤ 5 with a calm or lively mood in the first quarter, ≥ 5 in the middle half, ≥ 6 with a tense or serious mood in the last quarter; pacing fast iff a major point covers the chapter |
| StoryPlanner.KeyEventsOf | modules/plot/story_planner.py:390-406 | a name is a chapter's key event iff some plot point with that name has a range holding the chapter |
| StoryPlanner.KeyEventIffInRange | modules/plot/story_planner.py:390-406 | with distinct plot names, a point is listed for a chapter iff its range holds the chapter |
| StoryPlanner.ThreeActClimax | modules/plot/story_planner.py:262-272 | 高潮 is a key event of exactly the chapters 3n//4 .. n-1 |
| StoryPlanner.ThreeActResolution | modules/plot/story_planner.py:273-283 | 结局 is a key event of exactly the last chapter |
| StoryPlanner.ThreeActLastChapter | modules/plot/story_planner.py:386-416 | for three or more chapters the last chapter lists only 结局, is paced "medium" and advances "推进收尾" |
| StoryPlanner.LastChapterTension | modules/plot/story_planner.py:437-438 | the last chapter of any plan has tension 6 and the mood 严肃专注 |
| StoryPlanner.HeroJourneyOrdeal | modules/plot/story_planner.py:349-359 | 最大考验 is a key event of exactly the chapters 2n//3+1 .. n-2 |
| StoryPlanner.HeroJourneyReturn | modules/plot/story_planner.py:360-370 | 归来 is a key event of exactly the last two chapters |
| StoryPlanner.HeroJourneyShortOrdealLost | modules/plot/story_planner.py:353 | for a one-chapter book the ordeal's range is "1--1" and holds no chapter |
| StoryPlanner.Subplots | modules/plot/story_planner.py:464-491 | growth (high) and friendship (medium) lines always; a third romance line exactly when more than one character is given |
| StoryPlanner.ThemeOr | modules/plot/story_planner.py:189 | a present non-empty theme is kept; an absent or empty one becomes the default |
| StoryPlanner.CreateOutline | modules/plot/story_planner.py:108-163 | title, genre and structure are kept; the premise names the genre; 7 plot points for 英雄之旅 and 5 otherwise; n chapters numbered 1..n; 2 or 3 subplots |
| StoryPlanner.Execute | modules/plot/story_planner.py:568-592 | defaults 无题, 玄幻, 20 chapters and 三幕式; the generation info echoes the values the outline was built from |
| ArcManager.MainDistribution | modules/plot/arc_manager.py:109-120 | the resolution is [n]; setup, development and climax are each ascending |
| ArcManager.MainArcPartitionsBook | modules/plot/arc_manager.py:109-120 | for n ≥ 1 the four stages, read in order, are exactly 1..n, so they partition the book |
| ArcManager.SubplotDistribution | modules/plot/arc_manager.py:122-138 | setup is the two chapters from 3 + (3i mod 10); climax is [c, c+1] with c = n − 8 + 2i; resolution is [n − 2 + i]; development holds exactly the chapters from setup start + 5 up to c, ascending, and is empty iff c ≤ setup start + 5 |
| ArcManager.Priority | modules/plot/arc_manager.py:140-150 | one of 4, 6, 8; 8 exactly for 高, 4 exactly for 低, 6 for 中, for an absent importance and for anything else |
| ArcManager.MainArc | modules/plot/arc_manager.py:55-72 | id "main_arc", type 主线, priority 10, characters [protagonist, antagonist] defaulting to "", and the main distribution of the outline's chapter count |
| ArcManager.SubplotArc | modules/plot/arc_manager.py:86-102 | the i-th subplot gets id subplot_{i+1} and its default name 支线{i+1}; its priority is `Priority`; its characters are the "+"-split of the input; it depends on main_arc when i = 0 and on subplot_{i} otherwise |
| ArcManager.SubplotArcs | modules/plot/arc_manager.py:84-107 | one arc per subplot dictionary, in input order |
| ArcManager.SubplotIdsDistinct | modules/plot/arc_manager.py:88 | different subplot numbers give different ids |
| ArcManager.Store | modules/plot/arc_manager.py:105 | assigning under the arc's id replaces the arc in place when the id is present and appends it otherwise; ids stay distinct and every other arc keeps its position |
| ArcManager.StoreAllContains | modules/plot/arc_manager.py:86-105 | after storing arcs with distinct ids, every one of them is in the dictionary |
| ArcManager.CreateMainArc | modules/plot/arc_manager.py:49-75 | returns the main arc and stores it, keeping every arc with another id |
| ArcManager.CreateSubplotArcs | modules/plot/arc_manager.py:77-107 | returns the subplot arcs and every one of them is in the resulting dictionary |
| ArcManager.Report | modules/plot/arc_manager.py:183-193 | the common chapters are ascending and are exactly the shared chapters; the description names the first of them |
| ArcManager.FindIntersection | modules/plot/arc_manager.py:167-195 | a report iff the character sets meet and the chapter sets meet |
| ArcManager.IntersectionIff | modules/plot/arc_manager.py:170-193 | a report iff some character and some chapter belong to both arcs; the report lists exactly the shared characters and, ascending, exactly the shared chapters |
| ArcManager.IntersectionStartsAtMin | modules/plot/arc_manager.py:191-192 | the first common chapter, which the description names, is the smallest |
| ArcManager.AllHitsPairs | modules/plot/arc_manager.py:152-165 | a report is produced exactly for the pairs i < j of arcs, in dictionary order, that intersect |
| ArcManager.AllHitsDistinct | modules/plot/arc_manager.py:157-163 | with distinct arc ids no report repeats, so each intersecting pair is reported once |
| ArcManager.Execute | modules/plot/arc_manager.py:240-265 | create_main builds and stores the main arc from the outline (default empty); create_subplots uses the defaults [] and 20 chapters; analyze returns the arcs and all pair reports unchanged; any other action gives the error 不支持的操作类型 and leaves the arcs alone |
| Seqs.AllPairsMembers | modules/plot/arc_manager.py:159-163 | the nested loop over every item and each later item yields a result for exactly the pairs i < j whose result is present |
| Dicts.Put | modules/tools/timeline_manager.py:72 | storing a key keeps an existing key's position and appends a new one; the stored key reads back the new value and every other key reads back what it did before |
| TimelineManager.PutKeeps | modules/tools/timeline_manager.py:61-72 | storing a timeline under its own id keeps every timeline stored under its own id |
| TimelineManager.ParseTimestamp | modules/tools/timeline_manager.py:328-339 | the sort key raises only ValueError, only for a timestamp that carries one of the markers 年前, 月 or 章, and is 0 for a timestamp without them |
| TimelineManager.YearsAgo | modules/tools/timeline_manager.py:332-333 | "N年前" sorts at -N |
| TimelineManager.OrdinalOf | modules/tools/timeline_manager.py:334-337 | deleting "第" and the unit from "第N<unit>" parses back to N |
| TimelineManager.MonthN | modules/tools/timeline_manager.py:334-335 | "第N个月" sorts at N |
| TimelineManager.ChapterN | modules/tools/timeline_manager.py:336-337 | "第N章" sorts at 30 N |
| TimelineManager.SharesCharacter | modules/tools/timeline_manager.py:351 | true exactly when the two character lists have a name in common |
| TimelineManager.Conflicts | modules/tools/timeline_manager.py:341-354 | true exactly when some existing event has the same timestamp text and a character in common with the new one |
| TimelineManager.ConflictSymmetric | modules/tools/timeline_manager.py:341-354 | checking a pair of events in either order gives the same answer |
| TimelineManager.CrossBetweenIff | modules/tools/timeline_manager.py:384-394 | between two timelines a report is produced exactly for each clashing pair of an event of the first and an event of the second |
| TimelineManager.InternalConflictsIff | modules/tools/timeline_manager.py:356-372 | a report is produced exactly for each clashing pair i < j of the timeline, naming both events and the timeline |
| TimelineManager.InternalConflictsOnce | modules/tools/timeline_manager.py:356-372 | each clashing pair i < j is reported exactly once, in row order: as many reports as clashing pairs, the k-th for the k-th pair |
| TimelineManager.CrossConflictsIff | modules/tools/timeline_manager.py:374-396 | a cross report comes exactly from some pair of timelines i < j in store order |
| TimelineManager.DetectConflictsIff | modules/tools/timeline_manager.py:171-194 | in-timeline reports come exactly from the checked timelines; cross reports appear exactly when the store holds two or more timelines, whatever id was asked for |
| TimelineManager.DetectNamedOnly | modules/tools/timeline_manager.py:179-181 | asking about one id gives in-timeline reports for that timeline only, and none for an unknown id |
| TimelineManager.SharedEventReported | modules/tools/timeline_manager.py:374-396 | the same event with a character, stored in two timelines, is reported as clashing with itself |
| TimelineManager.CharacterTimelineEchoesMain | modules/tools/timeline_manager.py:241-277 | after a character timeline is created, every main event the character takes part in is reported as a cross-timeline clash with its own copy |
| TimelineManager.HasWord | modules/tools/timeline_manager.py:319-320 | when the lower-cased span contains "year", `split()[0]` exists, so no IndexError is possible |
| TimelineManager.EndTime | modules/tools/timeline_manager.py:315-326 | a span mentioning years gives start + 后 + N + 年, one mentioning months start + 后 + N + 月, where N is the span's first word as an integer, and ValueError when that word does not parse; any other span gives start + 之后 |
| TimelineManager.EndYears | modules/tools/timeline_manager.py:319-321 | "N years" ends at "<start>后N年" |
| TimelineManager.EndMonths | modules/tools/timeline_manager.py:322-324 | "N months" ends at "<start>后N月" |
| TimelineManager.MapPlotToChapter | modules/tools/timeline_manager.py:224-239 | raises only ValueError and only for a range with a dash; gives no chapter exactly when the range has no dash and is not all digits |
| TimelineManager.RangeMapsToStart | modules/tools/timeline_manager.py:233-235 | "a-…" maps to chapter a |
| TimelineManager.NumberMapsToItself | modules/tools/timeline_manager.py:236-237 | a bare number maps to itself |
| TimelineManager.LeadingDashRaises | modules/tools/timeline_manager.py:233-234 | a range that starts with a dash raises ValueError |
| TimelineManager.PlannerRangeMapsToStart | modules/tools/timeline_manager.py:231-235 | a chapter range "a-b" written by the story planner maps to chapter a for every a >= 0 |
| TimelineManager.PlotEvent | modules/tools/timeline_manager.py:207-219 | a plot point's event raises exactly when its chapter range raises |
| TimelineManager.ExtractEvents | modules/tools/timeline_manager.py:196-222 | one event per plot point in order, or ValueError exactly when some plot point's chapter range raises |
| TimelineManager.ExtractedEventsOrdered | modules/tools/timeline_manager.py:206-211 | plot point i becomes month i + 1, so the extracted events are already in timestamp order |
| TimelineManager.ExtractedIdsDistinct | modules/tools/timeline_manager.py:208 | extracted events have distinct ids |
| TimelineManager.CreateMainTimeline | modules/tools/timeline_manager.py:51-74 | the new timeline becomes the global one; it carries the extracted events and the start; other timelines are untouched; a ValueError from extraction or the end time leaves nothing stored |
| TimelineManager.MainWithoutOutline | modules/tools/timeline_manager.py:485-491 | `create_main` without an outline and with a span of N years gives an empty main timeline ending N years after its start |
| TimelineManager.BackgroundSortsFirst | modules/tools/timeline_manager.py:263 | the background event's timestamp "故事开始前" sorts at 0 |
| TimelineManager.CharacterEvents | modules/tools/timeline_manager.py:241-277 | the character timeline holds exactly the main events naming the character, followed by the background event |
| TimelineManager.CreateCharacterTimeline | modules/tools/timeline_manager.py:76-96 | the id uses the name or "unknown"; the events come from the global timeline; start and end are copied; only that id changes in the store |
| TimelineManager.ThousandsAgo | modules/tools/timeline_manager.py:302 | "k000年前" sorts at -1000 k |
| TimelineManager.WorldHistoryOrdered | modules/tools/timeline_manager.py:279-313 | period i sorts at -1000 (5 - i), so the world history is in strictly increasing timestamp order |
| TimelineManager.CreateWorldTimeline | modules/tools/timeline_manager.py:98-118 | the world timeline holds the five periods, starts at "<depth>前" and ends at "当前"; only its id changes in the store |
| TimelineManager.AddEvent | modules/tools/timeline_manager.py:120-140 | an unknown id or a clash returns False and changes nothing; otherwise the timeline gains the event and is sorted by timestamp as a permutation of old events plus the new one; an unparsable timestamp raises ValueError and leaves the event appended unsorted; other timelines are untouched |
| TimelineManager.AddTwiceRefused | modules/tools/timeline_manager.py:127-137 | adding the same event with a character twice is refused the second time and changes nothing |
| TimelineManager.EventsInChapter | modules/tools/timeline_manager.py:142-153 | exactly the timeline's events of that chapter, and none for an unknown id |
| TimelineManager.EventsByCharacter | modules/tools/timeline_manager.py:155-169 | exactly the timeline's events naming that character, and none for an unknown id |
| TimelineManager.GetEvents | modules/tools/timeline_manager.py:520-538 | a non-zero chapter number selects by chapter, otherwise a non-empty name selects by character, otherwise all events of the timeline |
| TimelineManager.Execute | modules/tools/timeline_manager.py:479-547 | each action's reply and store; `create_character` without a main timeline is an error; an incomplete event raises TypeError; unknown actions are errors |
| Seqs.SortBy | modules/tools/timeline_manager.py:138 | the sort result is ordered by key and has the same length |
| Seqs.SortByMultiset | modules/tools/timeline_manager.py:138 | sorting only rearranges |
| Seqs.SortBySorted | modules/tools/timeline_manager.py:138 | sorting a list that is already in order changes nothing |
| Seqs.ChooseMembers | modules/tools/timeline_manager.py:385-394 | the kept results are exactly the present ones |
| Seqs.PairsFlatMembers | modules/tools/timeline_manager.py:381-394 | the nested pair loop yields exactly the results of the pairs i < j |
| Json.GetOr | modules/tools/consistency_checker.py:121 | `.get` raises AttributeError exactly on a non-dictionary; on a dictionary it yields the stored value of a present key and the default for an absent one |
| Json.Len | modules/tools/consistency_checker.py:318 | `len` raises TypeError exactly on None, booleans and integers, and is zero exactly for a falsy container |
| Json.Iterate | modules/tools/consistency_checker.py:122 | iteration raises TypeError exactly on None, booleans and integers; it visits a list's items, a string's characters and a dictionary's keys, as many as `len` counts |
| Json.SetOf | modules/tools/consistency_checker.py:376-377 | `set()` raises TypeError exactly when the value cannot be iterated or holds a list or dictionary; otherwise its members are exactly the iterated items |
| Json.Overlap | modules/tools/consistency_checker.py:364-368 | the intersection test raises exactly when either side cannot become a set, and otherwise holds exactly when some item is iterated by both |
| Consistency.SeverityScore | modules/tools/consistency_checker.py:433-441 | low weighs 2, medium 5, high 8, critical 10 and any other severity 5; every weight lies in 2..10 |
| Consistency.TotalSeverityBounds | modules/tools/consistency_checker.py:409 | the summed weight lies between 2 and 10 per issue; it reaches 10 per issue exactly when all issues are critical and 2 per issue exactly when all are low |
| Consistency.OverallScore | modules/tools/consistency_checker.py:405-411 | with issues the score is 100 - 10 times the mean severity weight; it lies in [0, 100], is 100 exactly without issues, at most 80 with any, 0 exactly when all are critical and 80 when all are low |
| Consistency.Recommendations | modules/tools/consistency_checker.py:443-464 | each of the five fixed messages appears exactly when its type (or, for the fifth, a critical severity) occurs among the issues; nothing else appears, none twice, and they keep the fixed order |
| Consistency.GenerateReport | modules/tools/consistency_checker.py:405-431 | the report keeps the issues and their count; the per-type and per-severity tallies count each value's occurrences and each sums to the issue count |
| Consistency.EmptyReport | modules/tools/consistency_checker.py:405-464 | a report without issues scores 100 and recommends nothing |
| Consistency.Enroll | modules/tools/consistency_checker.py:126 | storing a character puts it under its name and leaves the world and the events alone |
| Consistency.Register | modules/tools/consistency_checker.py:122-126 | registering characters never touches the world or the events |
| Consistency.CharacterCheck | modules/tools/consistency_checker.py:73-84 | the character check of both checkers: a non-iterable character list raises TypeError and changes nothing; otherwise every item is registered (a non-dictionary stops registration, keeping the earlier ones), the world and events stay, and the reply succeeds exactly when registration and the check do, listing the check's character issues |
| Consistency.RegisterCompletes | modules/tools/consistency_checker.py:122-126 | registration completes exactly when no character dictionary has an unhashable name (and, for the character check, every item is a dictionary) |
| Consistency.RegisterValid | modules/tools/consistency_checker.py:126 | the registry never holds a name twice |
| Consistency.RegisterOthersUnchanged | modules/tools/consistency_checker.py:122-126 | a name no item carries keeps its entry, even when registration raises part-way |
| Consistency.RegisterLastWins | modules/tools/consistency_checker.py:122-126 | after a complete registration the entry under a name is the last dictionary carrying that name |
| Consistency.RegisterNamesPresent | modules/tools/consistency_checker.py:122-126 | after a complete registration every dictionary's name is in the registry |
| Consistency.Contribution | modules/tools/consistency_checker.py:133-135 | a timeline contributes its iterated events, or nothing when it is not a dictionary; the only exception is TypeError |
| Consistency.AllNewMembers | modules/tools/consistency_checker.py:133-135 | an event is appended exactly when some dictionary timeline with iterable events holds it |
| Consistency.ExtendEvents | modules/tools/consistency_checker.py:130-135 | appending events leaves the registry and world alone; it raises only TypeError, and exactly when some dictionary timeline's events cannot be iterated |
| Consistency.Stuck | modules/tools/consistency_checker.py:133-135 | the loop stops at the first timeline whose events cannot be iterated, after passing every earlier one |
| Consistency.ExtendEventsAppends | modules/tools/consistency_checker.py:133-135 | the events become the old events followed by those of every timeline before the one that stops the loop, so appending done before a raise is kept |
| Consistency.ExtendEventsPrefix | modules/tools/consistency_checker.py:133-135 | the old events stay in front; on success exactly the new timelines' events follow them |
| Consistency.Extract | modules/tools/consistency_checker.py:119-135 | extraction of a non-dictionary raises AttributeError and changes nothing; it completes exactly under the stated shape conditions, then holds the given world setting; earlier events always stay in front |
| Consistency.ExtractCount | modules/tools/consistency_checker.py:119-135 | a complete extraction appends exactly the story's timeline events |
| Consistency.ExtractTwiceAccumulates | modules/tools/consistency_checker.py:130-135 | checking the same story twice appends its events twice, since nothing is deduplicated |
| ToolsConsistency.MissingFields | modules/tools/consistency_checker.py:142-144 | the missing fields are exactly the required fields that are absent or falsy |
| ToolsConsistency.IncompleteIssue | modules/tools/consistency_checker.py:146-155 | the incompleteness issue is a medium character issue about the named character with one suggestion per missing field |
| ToolsConsistency.PowerIssue | modules/tools/consistency_checker.py:160-169 | the power-level issue is a high character issue related to the character and the power system |
| ToolsConsistency.EntryIssues | modules/tools/consistency_checker.py:140-172 | a character whose abilities are not a dictionary raises AttributeError; otherwise its issues are the incompleteness issue exactly when a field is missing and the power issue exactly when a truthy power level is not one of the eleven stages |
| ToolsConsistency.CharacterIssues | modules/tools/consistency_checker.py:137-174 | the character check raises exactly when some registered character's check does, and otherwise reports exactly the issues of the registered characters |
| ToolsConsistency.PlotIssue | modules/tools/consistency_checker.py:190-199 | the plot issue is high and relates the ids of the two plot points |
| ToolsConsistency.PairIssue | modules/tools/consistency_checker.py:181-199 | the check of two plot points raises AttributeError unless both are dictionaries |
| ToolsConsistency.PairIssueMeaning | modules/tools/consistency_checker.py:181-199 | a pair of dictionaries yields the plot issue exactly when no outcome of the first is a prerequisite of the second; it raises only AttributeError or TypeError |
| ToolsConsistency.PlotPairsRaise | modules/tools/consistency_checker.py:183-186 | the loop over consecutive plot points raises exactly when the check of some pair raises |
| ToolsConsistency.PlotPairsMembers | modules/tools/consistency_checker.py:183-199 | a completed loop reports exactly the issues the pair checks produce |
| ToolsConsistency.PlotIssueIff | modules/tools/consistency_checker.py:176-201 | in a completed plot check each consecutive pair is a pair of dictionaries, and its issue is reported exactly when the two points are not linked |
| ToolsConsistency.PlotPairOk | modules/tools/consistency_checker.py:183-186 | in a completed plot check every consecutive pair's check completed |
| ToolsConsistency.PlotIssueNumbered | modules/tools/consistency_checker.py:191 | plot issues of different positions have different ids |
| ToolsConsistency.OverlapSymmetric | modules/tools/consistency_checker.py:364-368 | the link test gives the same outcome with its arguments swapped |
| ToolsConsistency.MagicIssues | modules/tools/consistency_checker.py:311-329 | a non-dictionary magic system raises AttributeError; otherwise the magic issue is reported exactly when fewer than three power levels are listed |
| ToolsConsistency.GeographyIssues | modules/tools/consistency_checker.py:331-352 | a non-dictionary geography raises AttributeError; otherwise the climate issue is reported exactly when there are continents and no climate zones, and it is the only possible issue |
| ToolsConsistency.WorldIssues | modules/tools/consistency_checker.py:203-220 | a world setting that is not a dictionary raises AttributeError; one with neither a magic system nor a geography has no issues |
| ToolsConsistency.WorldIssuesMembers | modules/tools/consistency_checker.py:203-220 | a completed world check reports only the magic and climate issues, each exactly when its sub-check on a non-empty part reports it |
| ToolsConsistency.HasConflict | modules/tools/consistency_checker.py:370-383 | the conflict test completes exactly when both events are dictionaries whose character lists can become sets, and then holds exactly when they share a character and a timestamp |
| ToolsConsistency.ConflictSymmetric | modules/tools/consistency_checker.py:370-383 | a completed conflict test gives the same answer with the events swapped |
| ToolsConsistency.ConflictIssue | modules/tools/consistency_checker.py:229-239 | the conflict issue is a critical timeline issue relating the two event ids |
| ToolsConsistency.PairConflict | modules/tools/consistency_checker.py:228-239 | a pair of events yields the conflict issue exactly when they clash |
| ToolsConsistency.TimelineIssuesRaise | modules/tools/consistency_checker.py:222-241 | the timeline check raises exactly when the conflict test of some pair i < j raises |
| ToolsConsistency.TimelineIssuesClashes | modules/tools/consistency_checker.py:222-241 | a completed timeline check reports exactly the conflict issues of the clashing pairs i < j |
| ToolsConsistency.TimelineIssuesOnce | modules/tools/consistency_checker.py:222-241 | a completed timeline check reports each clashing pair i < j exactly once, in row order: as many issues as clashing pairs, the k-th for the k-th pair |
| ToolsConsistency.LogicIssue | modules/tools/consistency_checker.py:389-398 | a logic issue is medium and describes the stripped line |
| ToolsConsistency.LogicIssues | modules/tools/consistency_checker.py:385-403 | a medium logic issue is reported exactly for each non-blank reply line mentioning 问题, 矛盾 or 不合理, numbered by its line |
| ToolsConsistency.FullCheck | modules/tools/consistency_checker.py:47-71 | the full check keeps the extracted state even when a check raises; a report requires a complete extraction and lists the character, plot, world, timeline and logic issues in that order |
| ToolsConsistency.EmptyStoryIsPerfect | modules/tools/consistency_checker.py:47-71 | an empty story checked on an empty state with a reply that flags nothing scores 100 with no recommendations |
| ToolsConsistency.EmptyStoryReport | modules/tools/consistency_checker.py:47-71 | that check reports on no issues at all |
| Consistency.ExtractEmpty | modules/tools/consistency_checker.py:119-135 | extracting an empty story registers and appends nothing and sets an empty world |
| ToolsConsistency.EmptyStoryChecks | modules/tools/consistency_checker.py:137-241 | the character, plot, world and timeline checks find nothing in an empty story |
| ToolsConsistency.FocusCheck | modules/tools/consistency_checker.py:273-293 | the per-character chapter check raises exactly for an unhashable name or a registered, non-empty character whose personality is not a dictionary |
| ToolsConsistency.FocusAll | modules/tools/consistency_checker.py:103-111 | the focus loop raises exactly when the check of some focused name raises |
| ToolsConsistency.ChapterCheck | modules/tools/consistency_checker.py:95-117 | the chapter check never reports an issue; a non-dictionary chapter raises AttributeError, and a chapter without focused characters passes |
| ToolsConsistency.Execute | modules/tools/consistency_checker.py:534-566 | a non-dictionary parameter set raises AttributeError; an unknown check type answers with the error message and changes nothing; a chapter check leaves the state alone; a world check stores the given world setting |
| ToolsConsistency.PlotAndTimelineUnsupported | modules/tools/consistency_checker.py:484-566 | the plot and timeline check types, though advertised, answer with the unsupported-type error and change nothing |
| AnalysisConsistency.DifferingNone | modules/analysis/consistency_checker.py:296-297 | names of one length differ in no position exactly when they are equal |
| AnalysisConsistency.DifferingAtMostOne | modules/analysis/consistency_checker.py:296-297 | the count of differing positions of two names of one length is at most one exactly when no two positions both differ |
| AnalysisConsistency.DifferingSymmetric | modules/analysis/consistency_checker.py:296 | the count of differing positions does not depend on the order of the names |
| AnalysisConsistency.DifferingChars | modules/analysis/consistency_checker.py:296 | zipping two strings compares them character by character |
| AnalysisConsistency.NamesSimilar | modules/analysis/consistency_checker.py:290-297 | the similarity test raises only TypeError, and exactly when either name has no length |
| AnalysisConsistency.NamesSimilarStrings | modules/analysis/consistency_checker.py:290-297 | two string names are similar exactly when they have one length and differ in at most one position |
| AnalysisConsistency.NamesSimilarSymmetric | modules/analysis/consistency_checker.py:290-297 | similarity gives the same outcome with the names swapped, and a sized name is similar to itself |
| AnalysisConsistency.FindSimilarNamesRaise | modules/analysis/consistency_checker.py:282-288 | the search raises only TypeError, and exactly when the similarity test of the name with some other registered name raises |
| AnalysisConsistency.FindSimilarNamesMembers | modules/analysis/consistency_checker.py:282-288 | a completed search finds exactly the other registered names similar to the name, and never the name itself |
| AnalysisConsistency.MissingInfo | modules/analysis/consistency_checker.py:142-143 | the missing fields are exactly those of name, appearance, personality and background that are absent or falsy |
| AnalysisConsistency.MissingIssue | modules/analysis/consistency_checker.py:145-154 | the missing-information issue is a medium character issue about the character with one suggestion per missing field |
| AnalysisConsistency.SimilarIssue | modules/analysis/consistency_checker.py:157-167 | the similar-name issue is a low character issue relating the character and the similar names |
| AnalysisConsistency.EntryIssues | modules/analysis/consistency_checker.py:140-167 | a character's check raises exactly when the similar-name search does; otherwise it reports the missing-information issue exactly when a field is missing, the similar-name issue exactly when a similar name exists, and nothing else |
| AnalysisConsistency.CharacterIssues | modules/analysis/consistency_checker.py:135-169 | the character check raises exactly when the similar-name search of some registered name raises, and otherwise reports exactly the issues of the registered characters |
| AnalysisConsistency.ChapterConnections | modules/analysis/consistency_checker.py:321-333 | walking several chapters reports nothing; it raises KeyError exactly for a dictionary, which has no position 1 |
| AnalysisConsistency.PlotIssues | modules/analysis/consistency_checker.py:171-195 | story data that is not a dictionary raises AttributeError; otherwise the check raises exactly when the chapters have no length or form a dictionary of several entries, and reports the outline issue exactly when the outline is missing or empty |
| AnalysisConsistency.MissingElements | modules/analysis/consistency_checker.py:203-205 | the missing parts are exactly those of geography, culture, power system and history that are absent or falsy |
| AnalysisConsistency.IncompleteWorldIssue | modules/analysis/consistency_checker.py:207-216 | the world issue is medium, relates exactly the missing parts in order, and suggests one addition per part |
| AnalysisConsistency.WorldIssues | modules/analysis/consistency_checker.py:197-218 | a world setting that is not a dictionary raises AttributeError; otherwise there is no issue exactly when every part is present, and else the single issue naming the missing parts |
| AnalysisConsistency.ConflictIssues | modules/analysis/consistency_checker.py:237-247 | every found conflict becomes one high timeline issue |
| AnalysisConsistency.TimelineIssues | modules/analysis/consistency_checker.py:220-249 | the timeline check reports the empty-timeline issue exactly when there are no events and nothing otherwise, since the conflict finder finds none |
| AnalysisConsistency.LogicIssues | modules/analysis/consistency_checker.py:251-280 | story data that is not a dictionary raises AttributeError; otherwise the critical issue is reported exactly without a protagonist and the high issue exactly without a central conflict, and nothing else |
| AnalysisConsistency.FullCheck | modules/analysis/consistency_checker.py:45-69 | the full check keeps the extracted state even when a check raises; a report requires a complete extraction and lists the character, plot, world, timeline and logic issues in that order |
| AnalysisConsistency.ChapterCheck | modules/analysis/consistency_checker.py:93-115 | the chapter check never reports an issue; it raises exactly for a non-dictionary chapter, focused characters that cannot be iterated, or a focused name that cannot be a dictionary key |
| AnalysisConsistency.Execute | modules/analysis/consistency_checker.py:472-504 | a non-dictionary parameter set raises AttributeError; an unknown check type answers with the error message and changes nothing; a chapter check leaves the state alone; a world check stores the given world setting |
| AnalysisConsistency.PlotAndTimelineUnsupported | modules/analysis/consistency_checker.py:422-504 | the plot and timeline check types, though advertised, answer with the unsupported-type error and change nothing |
| SecurityConfig.Mask | config/security_config.py:53-63 | Dictionaries keep their keys in order, and each value is "***" when its key, lower-cased, contains a sensitive field name. Every other value is masked in turn. Lists are masked element by element, and any other value is returned as it is. |
| SecurityConfig.MaskMasks | config/security_config.py:47-63 | After masking, no sensitive key at any depth holds anything but "***". |
| SecurityConfig.MaskFixes | config/security_config.py:53-63 | Data whose sensitive values already read "***" comes back unchanged. |
| SecurityConfig.MaskFixedIff | config/security_config.py:53-63 | Masking leaves data unchanged exactly when every sensitive value is already "***", and masking twice is the same as masking once. |
| SecurityManager.RecordFailedAttempt | utils/security.py:79-99 | A failure stamps the IP with the current time. The first failure of an IP counts 1 and blocks nothing. A later one counts on from the previous count, or restarts at 1 when more than 3600 seconds have passed, and a count of five or more adds the IP to the blocked set. No other IP's record changes. |
| SecurityManager.BlockingIsPermanent | utils/security.py:79-103 | Once an IP is blocked, no sequence of recorded failures, by any IP, unblocks it. |
| SecurityManager.BurstCounts | utils/security.py:83-96 | Failures of one IP, each within an hour of the one before, raise its count by one each. After five of them the IP is blocked. |
| SecurityManager.ValidateRequestRate | utils/security.py:105-110 | The rate check admits every request. |
| SecurityManager.CheckRateLimit | utils/security.py:152-164 | A blocked IP gets HTTP 429 "IP已被封锁". Every other request passes, and the manager's state is left unchanged. |
| SecurityManager.MiddlewareNeverBlocks | utils/security.py:152-164 | Starting with nobody blocked, any run of requests through the middleware passes them all and records no failure. |
| SecurityManager.SanitizeString | utils/security.py:114-118 | A sanitized string holds only characters of its input, and none of `<`, `>`, `"`, `'` or `&`. |
| SecurityManager.RemoveAllDropsChars | utils/security.py:116-118 | Each one-character pattern is absent after its pass, and the later passes do not bring it back. |
| SecurityManager.Sanitize | utils/security.py:112-124 | Strings are sanitized. Dictionaries keep their keys in order and sanitize their values. Lists sanitize each item. Any other value is returned as it is. |
| SecurityManager.SanitizeCleans | utils/security.py:112-124 | After sanitizing, no string at any depth holds one of the five dangerous characters. |
| SecurityManager.SanitizeKeepsHarmless | utils/security.py:112-124 | Data with no dangerous substring in any string is returned unchanged, so sanitizing twice is the same as sanitizing once on such data. |
| CacheManager.Init | core/cache_manager.py:19-24 | A new manager has no namespaces and records its creation time as the last clean-up. |
| CacheManager.ExpireOr | core/cache_manager.py:55 | A missing or zero lifetime means 3600 seconds. Any other lifetime is used as given. |
| CacheManager.WithSpace | core/cache_manager.py:32-36 | Looking up a namespace creates it at the end of the namespace order if it is new. No other namespace changes. |
| CacheManager.GetValue | core/cache_manager.py:49-63 | A stored entry younger than the lifetime is served. An expired entry gives `None` and is deleted. A missing key gives `None`. No other key or namespace changes, and the namespace exists afterwards. |
| CacheManager.SetValue | core/cache_manager.py:65-70 | The key holds the value stamped with the current time. No other key or namespace changes. |
| CacheManager.SetThenGet | core/cache_manager.py:49-70 | A value that was set is read back for as long as it lives. |
| CacheManager.SetThenExpire | core/cache_manager.py:49-70 | Once its lifetime has passed, a value that was set reads as `None` and is deleted. |
| CacheManager.DeleteKey | core/cache_manager.py:72-82 | Without a key the namespace is emptied. With a key, only that key is removed, and a missing key changes nothing. No other namespace changes. |
| CacheManager.Unexpired | core/cache_manager.py:98-101 | A namespace keeps exactly its entries that are younger than the lifetime. |
| CacheManager.UnexpiredTwice | core/cache_manager.py:98-101 | Clearing a namespace twice at the same moment is the same as clearing it once. |
| CacheManager.ClearExpired | core/cache_manager.py:84-105 | A non-empty namespace name clears only that namespace. A missing or empty name clears every namespace and keeps their order. |
| CacheManager.AutoCleanup | core/cache_manager.py:84-112 | Within 600 seconds of the last clean-up nothing changes. After that, the time is recorded, the namespaces stay the same, and each keeps exactly its entries younger than an hour. |
| CacheManager.GetStats | core/cache_manager.py:114-125 | The statistics give the number of namespaces, one size per namespace in order, and a total that is the sum of those sizes. |
| CacheManager.Cached | core/cache_manager.py:146-197 | A stored entry is served, and left in place, exactly when it is not `None`, survives the periodic clean-up and is younger than the lifetime (0 meaning an hour). Otherwise the function's result is returned and stored under the key with the current time. The other keys and namespaces change only by the clean-up. |
| CacheManager.CleanupKeeps | core/cache_manager.py:107-112 | The clean-up leaves a stored entry in place exactly when it survives: no clean-up is due, or it is younger than an hour. |
| CacheManager.CachedNeverServesNone | core/cache_manager.py:161-171 | The wrapper returns `None` only when the function itself returned `None`. |
| CacheManager.StoredNoneRecomputed | core/cache_manager.py:161-171 | A stored `None` is never a hit: the function is called again and its new result is returned. |
| CacheManager.ClearCache | core/cache_manager.py:225-232 | A non-empty namespace name empties that namespace and leaves every other one as it was. Otherwise every namespace is emptied and none is added or removed. |
| CacheManager.DeleteEach | core/cache_manager.py:231-232 | Each listed namespace is emptied, and every other namespace is unchanged. |
| ToolRegistry.EmptyInv | core/tool_registry.py:59-78 | A new registry satisfies every invariant: tables without duplicate keys, each tool stored under its own name and listed under its category, no empty or duplicated category list, every alias resolving, and consistent statistics for every tool. |
| ToolRegistry.RemoveFirst | core/tool_registry.py:146 | `list.remove` takes one occurrence of a present name out of the list and leaves a list without it unchanged. |
| ToolRegistry.RemoveFirstDistinct | core/tool_registry.py:146 | On a list without duplicates, removing a name drops exactly that name and keeps the list duplicate-free. |
| ToolRegistry.File | core/tool_registry.py:110-112 | The name is appended to its category's list unless it is already there, and a missing category is created. No other category changes. |
| ToolRegistry.Register | core/tool_registry.py:90-133 | The tool is stored under its name, replacing any earlier tool of that name. The name is listed under its category, and every given alias points at it. Its statistics start fresh. Nothing else changes. |
| ToolRegistry.RegisterInv | core/tool_registry.py:90-133 | Registering keeps every registry invariant. |
| ToolRegistry.Unfile | core/tool_registry.py:145-148 | The name's first occurrence leaves its category's list, and a list that held only the name is deleted. A list without the name stays, and a missing list is created empty, as the `defaultdict` read does. A list without repeats no longer holds the name. No other category changes. |
| ToolRegistry.Unregister | core/tool_registry.py:135-161 | A registered name loses its tool, its statistics and every alias that points at it. Its category's list changes as Unfile states. An unknown name changes nothing. No other tool, statistics record or category changes. |
| ToolRegistry.UnregisterUnlists | core/tool_registry.py:135-148 | In a registry that keeps its invariants, an unregistered tool is no longer listed in its category. The category is deleted exactly when that tool was its only member. |
| ToolRegistry.UnregisterInv | core/tool_registry.py:135-161 | Unregistering keeps every registry invariant. |
| ToolRegistry.RegisterThenUnregister | core/tool_registry.py:90-161 | Registering a new name and then unregistering it restores the tool lookups, the other names' statistics and the aliases that were not overwritten. The overwritten aliases are gone. The categories come back unless the name was already listed under its category. |
| ToolRegistry.FileUnfile | core/tool_registry.py:110-112 | Appending a name to a category that did not list it and then removing it restores the categories. |
| ToolRegistry.GetTool | core/tool_registry.py:163-174 | A tool name finds its tool. Otherwise an alias finds the tool it points at, if that tool is still registered. Anything else finds nothing. |
| ToolRegistry.GetToolFinds | core/tool_registry.py:163-174 | In a consistent registry, a lookup succeeds exactly for tool names and aliases. |
| ToolRegistry.RegisterThenGet | core/tool_registry.py:90-174 | After registering, the tool is found by its name. Each alias finds it too, unless the alias is itself the name of a tool, which then takes precedence. |
| ToolRegistry.UnregisterThenGet | core/tool_registry.py:135-174 | After unregistering, the name finds nothing, unless it is also an alias of another tool, which is then found. |
| ToolRegistry.ListTools | core/tool_registry.py:176-189 | The listing is sorted by name. |
| ToolRegistry.ListToolsMembers | core/tool_registry.py:176-189 | In a consistent registry, a definition is listed exactly when it is a registered tool, it is shown (its name does not start with "_", or hidden tools are included), and it is filed under the requested category (or no category is requested). |
| ToolRegistry.StaleCategoryListing | core/tool_registry.py:103-112 | A tool re-registered under a new category is still listed under the category it left, as well as under the new one. |
| ToolRegistry.ListCategories | core/tool_registry.py:191-193 | The category names come back sorted, each category exactly once. |
| ToolRegistry.SearchTools | core/tool_registry.py:195-209 | The results are sorted by name and are exactly the registered tools whose name, description or one of whose tags contains the lower-cased query, with those fields lower-cased too. |
| ToolRegistry.SearchIgnoresCase | core/tool_registry.py:197 | Searching for the lower-cased query gives the same result as searching for the query. |
| ToolRegistry.SearchEmptyFindsAll | core/tool_registry.py:195-209 | The empty query finds every registered tool. |
| ToolRegistry.SetDependency | core/tool_registry.py:211-213 | The name's declared dependencies are replaced. No other table changes. |
| ToolRegistry.CheckDependencies | core/tool_registry.py:215-225 | A name with no declared dependencies passes. A name with declared dependencies passes exactly when each of them is a registered tool. |
| ToolRegistry.FirstMissing | core/tool_registry.py:220-223 | The loop stops at the first unregistered dependency, and finds none exactly when all of them are registered. |
| ToolRegistry.DependenciesFollowRegistration | core/tool_registry.py:211-225 | An empty dependency list always passes, and unregistering a declared dependency makes the check fail. |
| ToolRegistry.Record | core/tool_registry.py:249-283 | One more call counts once, as a success or as a failure. It adds its time to the total, keeps the average equal to the total over the calls, and stamps the call time. A failure with a non-empty message appends it, keeping only the last ten. |
| ToolRegistry.ExecuteTool | core/tool_registry.py:227-302 | An unknown name returns "工具不存在: name" and a failed dependency check returns "工具 name 依赖检查失败". Neither touches the statistics. Otherwise the tool's response is returned and only the statistics stored under the called name record the call. |
| ToolRegistry.ExecuteInv | core/tool_registry.py:227-302 | Executing keeps every registry invariant. |
| ToolRegistry.AliasCallCountedApart | core/tool_registry.py:230-252 | A call through an alias is counted under the alias, and the statistics of the tool it points at do not change. |
| ToolRegistry.SuccessRate | core/tool_registry.py:47 | The success rate is between 0 and 100 per cent. It is 0 exactly when no call succeeded, and 100 exactly when there were calls and none failed. |
| ToolRegistry.GetStats | core/tool_registry.py:328-338 | The statistics give the number of tools, one count per category (in category order), the execution statistics as stored, and the uptime. |
| ToolRegistry.CategoryCounted | core/tool_registry.py:328-338 | In a consistent registry, the category of every tool is counted with at least that tool. |
| SaveTxt.Group | modules/save_txt.py:337-346 | The grouped lines hold exactly the words, in order, and no line is empty. A line already under way stays at the front of the first group. |
| SaveTxt.GroupFits | modules/save_txt.py:337-346 | Every grouped line fits the width unless it is one long word, and no line could have taken the first word of the next one. |
| SaveTxt.PyWrapIsGroup | modules/save_txt.py:334-346 | The source's loop on strings, with its trailing spaces and final `strip`, builds exactly the grouped lines joined by single spaces. |
| SaveTxt.FormatParagraph | modules/save_txt.py:324-348 | The wrapped paragraph is empty exactly when the text has no words. |
| SaveTxt.ParagraphLayout | modules/save_txt.py:324-348 | The wrapped paragraph is its word groups, one per line. The groups hold the text's words in order, each fits 80 columns unless it is one long word, and none could have taken the next line's first word. |
| SaveTxt.Truncate | modules/save_txt.py:368-372 | A text within the limit is kept. A longer one becomes a prefix of itself followed by "...". For a limit of at least 3 the result has exactly the limit's length. For a limit from 0 to 2 the Python slice `text[:limit - 3]` counts from the end, so a text longer than 3 characters comes out as long as the text plus the limit: "abcdef" with limit 1 gives "abcd...". |
| SaveTxt.TruncateBounded | modules/save_txt.py:368-372 | For a limit of at least 3 the result never exceeds the limit, and truncating again changes nothing. |
| SaveTxt.ChapterContent | modules/save_txt.py:350-366 | The formatted text is empty exactly when the content has no non-blank line. |
| SaveTxt.ParagraphsIndented | modules/save_txt.py:356-364 | Every formatted paragraph is four spaces followed by a stripped line that holds no line break. |
| SaveTxt.ReformatParagraphs | modules/save_txt.py:356-366 | Splitting the joined paragraphs at line breaks and formatting them again gives back the same paragraphs. |
| SaveTxt.ChapterContentIdempotent | modules/save_txt.py:350-366 | Formatting a chapter's text twice is the same as formatting it once. |
| SaveTxt.Longest | modules/save_txt.py:145-146 | The result is the first of the longest non-empty items. It is "" exactly when every item is empty. |
| SaveTxt.Candidates | modules/save_txt.py:129-143 | There are three candidates, or five with an outline. The detailed outline is cut to 300 characters with "..." appended. |
| SaveTxt.DescriptionSection | modules/save_txt.py:127-159 | There is no section exactly when every candidate is empty. Otherwise the section is the heading followed by the first of the longest candidates, wrapped, as `max(..., key=len)` picks it. |
| SaveTxt.Info | modules/save_txt.py:189-203 | A card contributes one line per non-empty field. |
| SaveTxt.Shown | modules/save_txt.py:205-206 | At most the first three of those lines are shown, each indented by three spaces. |
| SaveTxt.CharactersSection | modules/save_txt.py:161-210 | There is no section exactly when the cast is empty. |
| SaveTxt.CardLayout | modules/save_txt.py:171-208 | A card has a numbered name line, a role line, at most three field lines and a blank line. A card with all four fields loses its background. |
| SaveTxt.InfoBounded | modules/save_txt.py:198-203 | Every labelled field has at most 100 characters of text after its label. |
| SaveTxt.OutlineSection | modules/save_txt.py:212-242 | There is no section exactly when there is no outline. |
| SaveTxt.OutlineLayout | modules/save_txt.py:218-240 | Each present part of the outline adds its lines and a blank line. An absent part adds nothing. |
| SaveTxt.Heading | modules/save_txt.py:257-258 | Every chapter heading starts with "第". |
| SaveTxt.ChapterContentStarts | modules/save_txt.py:350-366 | Formatted chapter text is empty or starts with the four-space indent, so it never collides with the chapter separator. |
| SaveTxt.ChapterLinesSeparators | modules/save_txt.py:255-279 | Every chapter but the last carries exactly one chapter separator, and the last carries none. |
| SaveTxt.MainSeparators | modules/save_txt.py:244-281 | With n chapters, the list of lines that `_format_main_content` joins holds exactly n - 1 chapter-separator lines. |
| SaveTxt.ChapterRunHeadings | modules/save_txt.py:255-274 | Every chapter appears with its numbered heading, and with its formatted text or the placeholder. |
| SaveTxt.MainContent | modules/save_txt.py:244-281 | Without chapters the main text is the fixed notice. With chapters it opens with its heading and a blank line, and it contains every chapter's numbered heading and its formatted text or the placeholder. |
| SaveTxt.SafeTitle | modules/save_txt.py:386 | The cleaned title holds no unsafe character and no character that was not in the title. |
| SaveTxt.SafeTitleKeeps | modules/save_txt.py:386 | Every safe character of the title is kept. |
| SaveTxt.SafeTitleIdempotent | modules/save_txt.py:386 | Cleaning twice is the same as cleaning once, and a title without unsafe characters is left as it is. |
| SaveTxt.FileName | modules/save_txt.py:384-388 | The file name is the cleaned title and an underscore, then the time stamp, and it ends in ".txt". |
| SaveTxt.Parts | modules/save_txt.py:18-52 | The title page and the information come first. Each truthy optional section follows, in the order description, characters, outline. The main text always comes next. The generation information is last when present. So there are three to seven parts. |
| SaveTxt.NovelText | modules/save_txt.py:18-54 | The novel opens with the title page, the separator and the information, then the description when there is one. It ends with the separator and the main text, followed by the separator and the generation information when present. The characters and outline sections appear whenever they exist. |
| SaveTxt.NovelSections | modules/save_txt.py:30-54 | Joining the parts keeps each optional section. The description comes right after the information, and the main text comes just before the generation information. |
| QualityAnalyzer.ClampScore | modules/analysis/quality_analyzer.py:99 | The clamped score lies in [0, 100]; a score already in range is kept and a negative one becomes 0. |
| QualityAnalyzer.Finish | modules/analysis/quality_analyzer.py:94-102 | The metric carries its name and clamped score. With no note it offers just its praise, otherwise exactly its notes. |
| QualityAnalyzer.Lacks | modules/analysis/quality_analyzer.py:79 | `not d.get(key)` raises AttributeError exactly on a non-dictionary, and otherwise tells whether the key's value is falsy. |
| QualityAnalyzer.AnyLacks | modules/analysis/quality_analyzer.py:90 | Over dictionaries the scan tells whether some item lacks the key. It raises only at a non-dictionary, and only AttributeError. |
| QualityAnalyzer.PlotFrom | modules/analysis/quality_analyzer.py:75-102 | The plot score lies in [35, 70], and it is a full 70 exactly when the only suggestion is the praise. |
| QualityAnalyzer.Plot | modules/analysis/quality_analyzer.py:68-102 | Non-dictionary data raises AttributeError. A plot metric lies in [35, 70], is 70 exactly when praised, and makes only catalogued suggestions. |
| QualityAnalyzer.PlotScore | modules/analysis/quality_analyzer.py:68-102 | On well-shaped data the plot metric is the one for three findings: no central conflict, no climax, and more than one chapter with one that does not advance the plot. |
| QualityAnalyzer.CastFrom | modules/analysis/quality_analyzer.py:109-139 | A non-empty cast scores 75, less 20 without a protagonist (type 主角) and 5 per character lacking a name, personality or background, floored at 0. It is 75 exactly when praised. |
| QualityAnalyzer.Characters | modules/analysis/quality_analyzer.py:104-139 | Non-dictionary data raises AttributeError. A character metric lies in [0, 75] and is 75 exactly when praised. |
| QualityAnalyzer.CharacterScore | modules/analysis/quality_analyzer.py:104-139 | On well-shaped data an empty cast scores 30, and any other cast gets the cast's metric. |
| QualityAnalyzer.SumTargets | modules/analysis/quality_analyzer.py:154 | Summing the word targets raises exactly when some chapter is not a dictionary or has a non-numeric target. |
| QualityAnalyzer.TextFrom | modules/analysis/quality_analyzer.py:152-173 | Chapters score 80, or 70 when fewer than 80% carry a detailed summary. A total under 10000 words adds a note but costs no points. |
| QualityAnalyzer.Writing | modules/analysis/quality_analyzer.py:141-173 | Non-dictionary data raises AttributeError. The writing score is 40, 70 or 80, and praise comes only with 80. |
| QualityAnalyzer.WritingScore | modules/analysis/quality_analyzer.py:141-173 | On well-shaped data the writing score is 40 without chapters, and otherwise depends only on the share of described chapters. |
| QualityAnalyzer.Missing | modules/analysis/quality_analyzer.py:183-184 | The missing elements are exactly the required ones (geography, culture, power_system, history) whose value is falsy. |
| QualityAnalyzer.WorldNotes | modules/analysis/quality_analyzer.py:189-197 | The notes name the missing elements, joined by ", ", when there are any, and mention sparseness when the setting is sparse. |
| QualityAnalyzer.SettingFrom | modules/analysis/quality_analyzer.py:180-207 | A setting scores 70, less 10 per missing element and 10 when under half its values are dictionaries of more than three entries. The score stays in [20, 70] and is 70 exactly when praised. |
| QualityAnalyzer.World | modules/analysis/quality_analyzer.py:175-207 | Non-dictionary data raises AttributeError. A world metric lies in [20, 70] and is 70 exactly when praised. |
| QualityAnalyzer.MissingAll | modules/analysis/quality_analyzer.py:183-184 | With no element present, every required element is missing, in the fixed order. |
| QualityAnalyzer.Levels | modules/analysis/quality_analyzer.py:221 | The tension levels are one per chapter, 5 where a chapter has none, and they raise only at a non-dictionary. |
| QualityAnalyzer.Peak | modules/analysis/quality_analyzer.py:230 | The peak is a level of the list, and no level exceeds it. |
| QualityAnalyzer.DistinctLevels | modules/analysis/quality_analyzer.py:224 | The number of distinct levels never exceeds the number of levels. |
| QualityAnalyzer.TensionFrom | modules/analysis/quality_analyzer.py:214-243 | The pacing score is 75, less 15 for fewer than three distinct levels and 10 when no level reaches 8. It stays in [50, 75] and is 75 exactly when praised. |
| QualityAnalyzer.Pacing | modules/analysis/quality_analyzer.py:209-243 | Non-dictionary data raises AttributeError. A pacing metric lies in [50, 75] and is 75 exactly when praised. |
| QualityAnalyzer.PacingScore | modules/analysis/quality_analyzer.py:209-243 | On well-shaped data with chapters, the pacing metric is the one for the chapters' tension levels. |
| QualityAnalyzer.ShortStoryFlat | modules/analysis/quality_analyzer.py:224-227 | One or two chapters can never show three distinct levels, so they always lose 15 and get the monotony note. |
| QualityAnalyzer.Mean | modules/analysis/quality_analyzer.py:63 | The overall score times the number of metrics is the sum of their scores. |
| QualityAnalyzer.Band | modules/analysis/quality_analyzer.py:264-271 | The overall recommendation is the top one from 85, the good one from 70 up to 85, the fair one from 50 up to 70, and the lowest below 50. |
| QualityAnalyzer.Flagged | modules/analysis/quality_analyzer.py:255-259 | The flagged entries are exactly the selected metrics' names with the suffix appended. |
| QualityAnalyzer.Notes | modules/analysis/quality_analyzer.py:261 | The collected notes are exactly the metrics' suggestions. |
| QualityAnalyzer.MakeReport | modules/analysis/quality_analyzer.py:245-279 | Strengths are exactly the metrics scoring at least 80, and weaknesses exactly those below 60. The recommendations are exactly every suggestion plus the overall band. |
| QualityAnalyzer.Assemble | modules/analysis/quality_analyzer.py:38-66 | The report raises exactly when a scorer raises, and the plot scorer's exception comes first. Otherwise it holds the five metrics in order, their mean and the report built from them. |
| QualityAnalyzer.Analyze | modules/analysis/quality_analyzer.py:38-66 | Non-dictionary data raises AttributeError. A report holds five in-range metrics and their mean, with catalogued suggestions. |
| QualityAnalyzer.ShapedAnalyzes | modules/analysis/quality_analyzer.py:38-66 | Well-shaped novel data always yields a report. |
| QualityAnalyzer.AnalyzeCeiling | modules/analysis/quality_analyzer.py:38-279 | The metrics come as plot, characters, writing, world, pacing. The caps 70, 75, 80, 70 and 75 hold the overall score to at most 74, so the top band is never given and only the writing can be a strength. |
| QualityAnalyzer.AssembleCeiling | modules/analysis/quality_analyzer.py:38-66 | Five outcomes named and capped as the scorers' are assemble into a report whose overall score stays at most 74. |
| QualityAnalyzer.CappedReport | modules/analysis/quality_analyzer.py:245-279 | A report of five metrics capped at 70, 75, 80, 70 and 75 has an overall score in [0, 74], never the top band, and at most the writing as a strength. |
| QualityAnalyzer.BandsNotNoted | modules/analysis/quality_analyzer.py:264-271 | No overall band is also a scorer's suggestion. |
| QualityAnalyzer.OneBand | modules/analysis/quality_analyzer.py:261-277 | A report holds a band exactly when that band is the one for its overall score, even after duplicates are removed. |
| QualityAnalyzer.OneBandOf | modules/analysis/quality_analyzer.py:261-277 | A report of catalogued suggestions holds exactly one band, the one for its score. |
| QualityAnalyzer.MatchesAny | modules/analysis/quality_analyzer.py:338 | Over strings, the test tells whether some area occurs in the name. A non-string area met before a match raises TypeError. |
| QualityAnalyzer.FocusOn | modules/analysis/quality_analyzer.py:336-340 | The kept metrics are exactly those whose lower-cased name contains an area. The filter raises only TypeError, and never with string areas. |
| QualityAnalyzer.Execute | modules/analysis/quality_analyzer.py:325-343 | The tool reports the analysis of `novel_data`. With focus areas it keeps exactly the metrics in focus and changes nothing else. Without focus areas it is the analysis itself. |
| QualityAnalyzer.NoneInFocus | modules/analysis/quality_analyzer.py:338 | No ASCII area ever occurs in one of the five Chinese metric names. |
| QualityAnalyzer.EnglishFocusKeepsNothing | modules/analysis/quality_analyzer.py:302-340 | Focus areas written in English, as the parameter description suggests (plot/character/...), leave the report with no metric at all. |
| BaseTools.RequiredNames | core/base_tools.py:81 | The required names are exactly the names of the parameters marked required, and there are no more of them than parameters. |
| BaseTools.Missing | core/base_tools.py:82 | A name is reported missing exactly when it is required and not among the given parameter names. |
| BaseTools.ValidateParameters | core/base_tools.py:79-87 | The check passes, returning true, exactly when every required parameter is given; otherwise it raises ValueError. |
| BaseTools.SafeExecute | core/base_tools.py:99-148 | The response id is the tool's name and the time in whole milliseconds. The call succeeds exactly when the parameters validate and the tool returns, and it carries an error exactly when it fails: the missing-parameter message when validation fails, else the tool's exception text. |
| BaseTools.AddHook | core/base_tools.py:262-267 | Adding succeeds exactly for the three known events and appends the hook to that event's list alone; any other event raises ValueError. |
| BaseTools.RemoveHook | core/base_tools.py:269-272 | Removing takes the hook's first occurrence out of the event's list (one fewer of it, nothing else), leaves the hooks unchanged when the hook or the event is unknown, and touches no other event. |
| BaseTools.AddRemoveHook | core/base_tools.py:262-272 | Adding a new hook to a known event and then removing it restores the hooks. |
| BaseTools.FreshInv | core/base_tools.py:155-162 | A new registry satisfies the invariant: keys without duplicates, every tool listed under its category, every category list non-empty and without repeats. |
| BaseTools.Register | core/base_tools.py:164-180 | The tool is stored under its name, replacing any earlier one; its name is appended to its category's list unless already listed (a new category lists it alone); no other tool, category or hook changes. |
| BaseTools.Unregister | core/base_tools.py:182-197 | An unknown name changes nothing. A known tool is deleted; in its category the first occurrence of its name is removed and an emptied list is deleted, a list without the name is untouched; no other tool, category or hook changes. |
| BaseTools.RegisterInv | core/base_tools.py:164-180 | Registering keeps the invariant. |
| BaseTools.RegisterFiled | core/base_tools.py:171-178 | After registering, every tool is still listed under its category. |
| BaseTools.RegisterListsOk | core/base_tools.py:174-178 | After registering, every category list is still non-empty and free of repeats. |
| BaseTools.UnregisterInv | core/base_tools.py:182-197 | Unregistering keeps the invariant. |
| BaseTools.UnregisterFiled | core/base_tools.py:184-193 | After unregistering a registered tool, every remaining tool is still listed under its category. |
| BaseTools.UnregisterListsOk | core/base_tools.py:190-193 | After unregistering a registered tool, every remaining category list is non-empty and free of repeats. |
| BaseTools.UnregisterUnlists | core/base_tools.py:182-197 | In a registry that keeps the invariant, an unregistered tool is no longer listed under its category, and the category disappears exactly when the tool was its only entry. |
| BaseTools.DefinitionsOf | core/base_tools.py:207 | The definitions of the listed names come out in listing order, one per name; the listing raises KeyError exactly when some listed name is not registered. |
| BaseTools.ListTools | core/base_tools.py:203-209 | With a non-empty category: the definitions of the names listed under it, in order, none for an unknown category, KeyError exactly when a listed name is not registered. Without a category (or with ""): every tool's definition in registration order. |
| BaseTools.DefinitionsAppend | core/base_tools.py:207 | Listing one more registered name appends its definition to the listing. |
| BaseTools.DefinitionsAgree | core/base_tools.py:207 | Two tool tables that agree on the listed names give the same listing. |
| BaseTools.RegisterListsLast | core/base_tools.py:164-209 | Registering a tool its category does not list yet puts its definition at the end of that category's listing. |
| BaseTools.StaleListing | core/base_tools.py:164-209 | Re-registering a name under another category leaves it listed under the old one; after unregistering it, listing the old category raises KeyError. |
| BaseTools.ExecuteTool | core/base_tools.py:215-260 | An unknown tool gives a failed response with the call's id and the "工具不存在" message, and no hook runs. Otherwise the before-execute hooks run, then the after-execute hooks on success or the on-error hooks on failure; a plain tool's response carries the call's id and succeeds exactly when the tool returns; an asynchronous tool's response is `safe_execute`'s. |
| BaseTools.Build | core/base_tools.py:558-582 | Building succeeds exactly when the name is non-empty and an execute function is set, and otherwise raises ValueError; the tool is asynchronous and carries the collected definition and parameters. |
| BaseTools.ChainParams | core/base_tools.py:528-538 | Each `.parameter()` call adds one parameter and changes neither the definition nor the execute function. |
| BaseTools.BuildChain | core/base_tools.py:509-564 | A chain of `.name().description().category()`, parameters, tags and optionally `.execute()` builds exactly when the name is non-empty and `.execute()` was called, and the tool's definition holds the chain's values and one parameter per `.parameter()` call. |
| BaseTools.ExecuteBuilt | core/base_tools.py:234-235 | A built and registered tool runs through `safe_execute`: the call succeeds exactly when every required parameter is given and the execute function returns, and the response id is the time-based id, not the call's. |
| BaseTools.RetryFrom | core/base_tools.py:366-386 | From attempt k on: the result is the first successful attempt, preceded only by failures; with positional arguments all attempts failing raises the last attempt's exception; without them the first failure raises IndexError. |
| BaseTools.Retry | core/base_tools.py:359-389 | With at least one attempt allowed and positional arguments, the call succeeds exactly when some attempt within the limit does, returns the first success, and otherwise raises the last attempt's exception. With no attempts allowed it raises TypeError; without positional arguments a failure of the first attempt raises IndexError. |
| BaseTools.Admit | core/base_tools.py:399-411 | A call is admitted exactly when fewer than the limit of recorded calls are under a minute old; the record afterwards holds exactly those calls, plus this one when it is admitted. |
| BaseTools.RateLimited | core/base_tools.py:392-419 | Under the limit the function's own result comes back; at or over it the call raises Exception, or IndexError when the function has no positional argument; the record is updated as `Admit` says either way. |
| BaseTools.RecentNested | core/base_tools.py:402 | Pruning the record at one time and then at a later time is the same as pruning it at the later time. |
| BaseTools.InWindowLater | core/base_tools.py:402 | At a later time, no more admitted calls fall within the minute. |
| BaseTools.RecordIsWindow | core/base_tools.py:394-411 | Over any run of calls at non-decreasing times, the pruned record at any time from the last call on holds exactly as many times as there are admitted calls within the minute before. |
| BaseTools.AdmittedIff | core/base_tools.py:402-411 | In a run of calls at non-decreasing times, a call is admitted exactly when fewer than the limit of earlier admitted calls fall in the minute before it. |
| BaseTools.RateLimitHolds | core/base_tools.py:392-419 | In a run of calls at non-decreasing times, at the time of each call at most the limit (none when the limit is not positive) of admitted calls fall within the last minute. |
| ConfigManager.CanHandleExtension | config/config_manager.py:33-64 | The file `name + ext`, for each of .yaml, .yml, .json and .env, is read by the loader of that extension and by no other. No loader reads it when the final path component of `name` is empty, because the dot then opens the file name. |
| ConfigManager.CanHandleIgnoresCase | config/config_manager.py:33-64 | Lower-casing the path does not change whether a loader handles it: each test lower-cases the suffix. |
| ConfigManager.OneLoader | config/config_manager.py:33-64 | No file is handled by two loaders. |
| ConfigManager.CanHandleSuffix | config/config_manager.py:33-64 | A handled file has a non-empty suffix. |
| ConfigManager.DotEnvUnread | config/config_manager.py:63-64 | A file whose whole name is `.env` has no suffix, so no loader reads it, the `.env` loader included. |
| ConfigManager.ParseEnvLine | config/config_manager.py:72-75 | A line yields an entry exactly when its stripped text is non-empty, does not start with `#` and holds `=`. |
| ConfigManager.ParseEnvLineSplit | config/config_manager.py:72-75 | An entry splits the stripped line at its first `=`. The key is the stripped text before it and the value the stripped text after it. |
| ConfigManager.EnvLineRoundTrip | config/config_manager.py:72-75 | A stripped key without `=` and not starting with `#`, written as `key=value` with a stripped value, reads back as that key and value. |
| ConfigManager.ParseLinesGet | config/config_manager.py:71-75 | After the loop over the lines, a key holds the value of the last line that sets it. A key that no line sets is absent. |
| ConfigManager.LoadEnv | config/config_manager.py:66-82 | A file that cannot be read gives `{}`, without the environment. Otherwise every environment variable is among the result's keys. |
| ConfigManager.EnvOverrides | config/config_manager.py:77-78 | An environment variable's value replaces the file's entry of the same name. |
| ConfigManager.EnvFileEntry | config/config_manager.py:68-79 | A name the environment lacks keeps the value the file's lines give it. |
| ConfigManager.Load | config/config_manager.py:36-82 | The `.env` loader returns the keys of the `.env` file and the environment. The YAML and JSON loaders return what their parser gives for the file. |
| ConfigManager.PlanSound | config/config_manager.py:110-114 | Every file `load_config` reads exists and is handled by the loader that reads it. |
| ConfigManager.PlanByExtension | config/config_manager.py:108-116 | `load_config` reads each existing file `name + ext` exactly once, in the order .yaml, .yml, .json, .env, each with the loader of its extension. When the final component of `name` is empty it reads nothing. |
| ConfigManager.NoFilesNoData | config/config_manager.py:108-120 | With no configuration file present the data is `{}`. |
| ConfigManager.GatherGet | config/config_manager.py:114-115 | A key of the merged data holds its value in the last file read that has it, so later files override earlier ones key by key. |
| ConfigManager.LoadConfig | config/config_manager.py:102-137 | A cached configuration is returned as it is and nothing changes. Otherwise the result carries the merged data. It is validated exactly when the schema accepts the data and a schema is given or registered, with the given schema taking precedence. The result is cached under the name and no other name's cache entry changes. |
| ConfigManager.LoadCached | config/config_manager.py:104-105 | A second load returns the first load's configuration and changes nothing, whatever files, schema or validation outcome it sees. |
| ConfigManager.ValidationFallback | config/config_manager.py:124-134 | When the schema rejects the data, the raw data is returned and cached. |
| ConfigManager.ReloadConfig | config/config_manager.py:143-147 | A reload returns the merged data of the files as they are now, caches it, and leaves every other name's cache entry alone. |
| ConfigManager.ReloadIgnoresCache | config/config_manager.py:143-147 | The reloaded configuration does not depend on what was cached before. |
| ConfigManager.SetConfig | config/config_manager.py:149-151 | The name holds the given configuration, and no other name or schema changes. |
| ConfigManager.SetThenLoad | config/config_manager.py:102-151 | A configuration that was set is what the next load returns. |
| ConfigManager.RegisterSchema | config/config_manager.py:98-100 | The name's schema is the given one, no other schema changes, and the cache is untouched. |
| ConfigManager.GlobalLoads | config/config_manager.py:228-235 | On the module-level manager, loading "llm" validates with `LLMConfig`. A name without a registered schema gives the raw data. |
| LlmClient.MissingVars | core/llm_client.py:145 | The missing variables are exactly the required ones that are not among the keyword arguments. The list is empty exactly when every required variable is given. |
| LlmClient.Format | core/llm_client.py:142-152 | A missing required variable raises `ValueError` whose message lists the missing variables. With every required variable given, a template field without an argument raises `ValueError` naming the field. A prompt is always the rendered template. |
| LlmClient.FormatPrompts | core/llm_client.py:142-152 | `format` gives a prompt exactly when every required variable is given and the template renders. A missing variable is reported whatever the template would have done. |
| LlmClient.GetConversation | core/llm_client.py:173-175 | An unknown session has the empty history. A known session has its stored messages. |
| LlmClient.AddMessage | core/llm_client.py:162-171 | The session's history is the old history followed by the message, cut to its newest `max_history` messages for a positive bound. A bound of 0 keeps everything, and a negative bound drops the oldest `-max_history` messages. Other sessions and the bound do not change. |
| LlmClient.AddMessageBounded | core/llm_client.py:162-171 | With a positive bound, every session stays within the bound and the new message is the newest. |
| LlmClient.ZeroKeepsAll | core/llm_client.py:169-171 | With `max_history` 0 nothing is dropped: each message lengthens its session by one. |
| LlmClient.AddTwice | core/llm_client.py:162-171 | Two messages added in a row with a positive bound leave the newest `max_history` messages of the old history followed by both. |
| LlmClient.ClearConversation | core/llm_client.py:177-180 | The cleared session has the empty history, and the other sessions keep theirs. |
| LlmClient.AddThenClear | core/llm_client.py:162-180 | Adding a message and then clearing the session gives the same histories as only clearing it. |
| LlmClient.Request | core/llm_client.py:243-256 | The request is the system message when a system prompt is given, then the history in order, then the user's prompt last. |
| LlmClient.Messages | core/llm_client.py:243-256 | The user's prompt is last. The session's history is included when `use_history` is set and a non-empty session id is given. Otherwise no history is included. |
| LlmClient.NoHistoryWithoutSession | core/llm_client.py:249-252 | Without history, the request holds no assistant message. |
| LlmClient.GenerateText | core/llm_client.py:233-270 | The request is `Messages`. Without a session id, no conversation changes. With one, only that session changes: it gains the user's message and then the reply, and keeps its newest `max_history` messages. |
| LlmClient.Recorded | core/llm_client.py:262-268 | The history records the user's message and then the assistant's reply, only for a non-empty session id. |
| LlmClient.GenerateWithTemplate | core/llm_client.py:272-282 | A template that fails to format raises `ValueError` before anything is sent or recorded. Otherwise the call is `generate_text` with the formatted prompt. |
| LlmClient.StreamGenerate | core/llm_client.py:284-318 | The full reply is the concatenation of the chunks, and every chunk fits inside it. The messages sent and the history kept are those of `generate_text` with history asked for and the full reply. |
| LlmClient.RegisterFunction | core/llm_client.py:189-198 | The name's definition holds the name, description and parameters. A new name goes last, a registered name keeps its place, and no other definition changes. |
| LlmClient.RegisterNamed | core/llm_client.py:189-198 | Registering keeps every definition under its own name. |
| LlmClient.FunctionDefinitions | core/llm_client.py:200-202 | There is one definition per registered function, in registration order, each under its own name. |
| LlmClient.CallFunction | core/llm_client.py:204-222 | An unregistered name raises `ValueError` whose message names the function, and only an unregistered name does. A registered function's reply is its JSON result, or `{"error": …}` with the exception's text when the call fails. |
| LlmClient.EscapeChar | core/llm_client.py:222 | `json.dumps` with `ensure_ascii=False` writes a character as itself exactly when it is not the quote, the backslash or a control character. |
| LlmClient.EscapedRoundTrip | core/llm_client.py:222 | Reading back an escaped string gives the original string. |
| LlmClient.ErrorReplyDecodes | core/llm_client.py:220-222 | The error reply is `{"error": "…"}`, and the text between the quotes reads back as the exception's text. |

## Worked examples

These lemmas evaluate the model on one fixed input each. They document
concrete behaviour, and the contracts in "## Model" state the general
properties behind them.

- `AnalysisConsistency.EmptyStoryFindings` and `AnalysisConsistency.EmptyStoryAll`
  (modules/analysis/consistency_checker.py:45-69). An empty story, checked with
  nothing registered, reports five issues in order: the missing outline, the
  incomplete world, the empty timeline, the missing protagonist and the missing
  central conflict.
- `AnalysisConsistency.EmptyPlot` (modules/analysis/consistency_checker.py:176-195).
  Story data without an outline or chapters has only the outline issue.
- `AnalysisConsistency.EmptyWorld` (modules/analysis/consistency_checker.py:202-216).
  An empty world setting lacks all four parts.
- `AnalysisConsistency.EmptyLogic` (modules/analysis/consistency_checker.py:256-278).
  Story data without a protagonist or a central conflict has both logic issues.
- `AnalysisConsistency.FiveWeight` and `AnalysisConsistency.EmptyStoryScore`
  (modules/analysis/consistency_checker.py:343-402). Those five issues
  (severities high, medium, low, critical, high) weigh 33 of 50, so the story
  scores 34.
- `AnalysisConsistency.FiveAdvice` (modules/analysis/consistency_checker.py:381-402).
  Those issues get every recommendation except the character one, in the fixed
  order.
- `ArcManager.SubplotNotClamped` (modules/plot/arc_manager.py:129-138). Nothing is
  clamped to the book: in a 5-chapter book the first subplot's climax falls on
  chapters -3 and -2, and in a 2-chapter book its setup falls on chapters 3
  and 4.
- `QualityAnalyzer.EmptySetting` (modules/analysis/quality_analyzer.py:177-196).
  An empty world setting misses all four elements, but `0 < 0 * 0.5` is false,
  so it is not sparse and scores 30.
- `SaveTxt.TruncateShortLimit` (modules/save_txt.py:368-372). Truncating
  "abcdef" to 1 character slices `text[:-2]` and gives "abcd...", seven
  characters.

## Left out

- Variant ids (MD5 of theme, time and elements) and timestamps: hashing and wall-clock time are out of scope. A record carries the call's `now` parameter instead.
- `DiversityEnhancer.Recommendations`: the unused-structure recommendation takes `list(set)[:3]`, whose order Python leaves unspecified. The contract states only that at most three unused names are listed and that the recommendation appears iff some structure is unused.
- The structure description, conflict and tone texts and the tool's definition schema are data without behaviour and are not modelled.
- `generate_enhanced_character` and `generate_llm_character`: prompt assembly and language-model calls only. The naming loop they use is modelled (`EnhancedStoryGenerator.UniqueCharacterName`), and the `character` and `full_story` actions return no character data in the model.
- The generated outline, chapter and character texts come from the language model and are not modelled; the computed parts of each result (structure, technique, twists, chapter number, title, innovations, technique application, element) are.
- The `_clean_name` regular expressions are modelled as explicit character-set filters and a per-line cut at the first punctuation mark; no regular-expression engine is modelled.
- `write_character_monologue` and `write_exposition_dialogue`: their prompts and language-model calls are not modelled. The monologue is the model's reply, passed in as a parameter. Only the personality lookup and the token budget `int(word_count * 1.5)` are kept, for the exceptions they raise.
- DialogueWriter.AnalyzeCharacterVoice: `str()` of the personality and the background is `Json.Display`. It follows Python's `str` for strings, numbers, lists and dictionaries, except where `Json.Repr` departs from it (quotes).
- `_refine_dialogue` returns its input unchanged and is modelled as the identity.
- The per-line float comparison `i / total < 0.3` is modelled with exact integer arithmetic (`10i < 3 total`). For the line counts 4, 8 and 15 no quotient is close enough to 0.3 or 0.7 for rounding to matter.
- `add_custom_path` mutates the class-level graph shared by every instance. The model returns the new graph and leaves the sharing out.
- `StoryPlanner._generate_basic_story_info`: its prompt lookup and language-model call are left out. The reply is discarded, and the model keeps only the fixed record the function returns.
- `StoryPlanner.IsChapterInRange`: Python's `int()` also accepts underscores between digits and non-ASCII decimal digits. The planner only parses ranges it wrote itself with ASCII digits, so those forms are not modelled.
- `StoryPlanner.TensionLevel`: the position is an exact rational, not a float. The model therefore does not reproduce float rounding exactly at an integer boundary of `position * 12` or `position * 16`.
- `StoryPlannerTool.definition`: it is static metadata with no behaviour.
- The planner tool's `world_setting` and the character dictionaries only feed the prompt. The model keeps just the number of characters.
- `ArcManager.Intersection`: `common_characters` is `list(set)`, whose order Python leaves unspecified. The model keeps it as a set.
- `ArcManager` arc dictionary: the arcs are modelled as a sequence with distinct ids, in insertion order. The value stored under a key is always the arc with that id.
- `ArcManagerTool.definition` is static metadata, and `register_plot_tools` is registry wiring; neither is modelled.
- TimelineManager: the language-model handle the manager creates is never used and is not modelled. The world setting passed to `create_world_timeline` is never read, so it is not a parameter.
- TimelineManager: the coroutines (`async def`) are modelled as plain functions. `asdict` serialisation of the replies is not modelled; replies carry the datatypes.
- TimelineManager.Execute: `TimelineEvent(**event)` raises TypeError for a dictionary with missing or unknown keys; that case is the absent event. The types of the fields are not checked.
- TimelineManager.MapPlotToChapter: `str.isdigit` and `int()` accept non-ASCII digits; the model accepts ASCII digits only.
- TimelineManager.AddEvent: states that the result is sorted and a permutation. That events with equal keys keep their order (Python's sort is stable) is built into `Seqs.SortBy` but is not stated as a contract.
- ToolsConsistency.FullCheck: the prompt for the logic check and the call to the language model are not modelled; the model's answer is the `reply` parameter.
- Consistency.OverallScore: Python computes the score in floating point; the model uses exact `real`. A score of zero is the integer `0` from `max(0, ...)` in Python and `0.0` here.
- Json: Python treats `True` and `1` (and `False` and `0`) as the same dictionary key and as equal names; the model keeps booleans and integers apart.
- Json.Repr: strings are shown in single quotes; Python switches to double quotes for a string that contains a single quote and escapes special characters, which the model does not.
- Json: a dictionary value has string keys and no key twice, as JSON story data does.
- ToolsConsistency.ChapterCheck and AnalysisConsistency.ChapterCheck: the story context is passed to stubs that never read it, so it is not a parameter.
- ToolsConsistency.PlotIssues: slicing a dictionary (`plot_points[:-1]`) raises TypeError before Python 3.12 and KeyError from 3.12 on; the model gives TypeError.
- The coroutines (`async def`) of both checkers are modelled as plain functions, and `asdict` serialisation of the replies is not modelled.
- Json: there is no floating-point value. Story data whose `word_count_target` or `tension_level` is a float, which `_analyze_writing_quality` and `_analyze_pacing` accept (modules/analysis/quality_analyzer.py:154, :222), cannot be expressed, so the model says nothing about such input. The story planner's `Chapter` record declares both as integers (modules/plot/story_planner.py:55, :59).
- SaveTxt: the title page, the work-information block and the generation-info block print the current time and format numbers with thousands separators and one decimal. They are passed in as finished strings, and the model places them.
- SaveTxt: `save_novel_as_txt` writes the file and reports its size. The model keeps the safe title, the file name and the text; the directory, the writing and the file statistics are left out, and so are `_save_story_enhanced` and `_save_story_json_backup` (file I/O).
- SaveTxt: story-package fields that the source reads with `.get(key, default)` are typed fields with the default filled in, so a field of the wrong type is not modelled.
- QualityAnalyzer: scores and the overall mean are exact integers and reals; Python computes the mean in floating point.
- QualityAnalyzer.MakeReport: `list(set(recommendations))` has an order Python leaves unspecified; the model keeps the recommendations as a set.
- QualityAnalyzer: the coroutines are plain functions, and `asdict` serialisation of the tool's reply and the static tool definition are not modelled.
- ToolRegistry: hooks (`add_hook` and their calls in `execute_tool`), `batch_execute` (concurrency), the module-level `register_tool`/`get_tool`/`execute_tool` wrappers around the global registry, and the `tool` class decorator are not modelled.
- ToolRegistry: `export_definitions`, `validate_all_tools` and `RegistryStats.to_dict` read the parameter, version and example fields that the reduced `Definition` leaves out; they are not modelled.
- ToolRegistry.ExecuteTool: what the tool does is outside the registry. The response of its `safe_execute` and the time the call took are parameters, and the clock is `now`.
- Text.Lower: lower-cases ASCII letters only; Python's `str.lower` also folds other scripts. The metric names, tool names and field names the model lower-cases are Chinese or ASCII.
- CacheManager: the per-namespace locks, `generate_cache_key` (MD5 of the arguments), and the async/sync wrapper split of `cached`, `cache_result` and `method_cache` are not modelled; the key and the computed value are parameters.
- SecurityManager: `generate_api_key`, `hash_password`, `verify_password`, `create_access_token`, `verify_token` and `verify_api_key` (randomness, PBKDF2 hashing and a JWT library) are not modelled.
- SecurityConfig: the CORS, rate-limit, security-header and input-validation tables are constants nothing in the module reads; only `mask_sensitive_data` is modelled.
- BaseTools: the `cached` and `cached_for_tool_execute` decorators of `ToolDecorator` and `method_cache` are not modelled: `cached` and `method_cache` key their caches by the MD5 digest of `json.dumps(..., sort_keys=True, default=str)` of the arguments (core/base_tools.py:294-295, :436-437), and `cached_for_tool_execute` by `json.dumps(parameters, sort_keys=True)` itself (:334); the model has neither JSON serialisation nor MD5 (core/cache_manager.py's `cached` is modelled).
- BaseTools: `set_context`/`get_context`, `post_execute` (it returns the result unchanged), the `on_error` log line, the result value, the execution time and the metadata of a response are not modelled.
- BaseTools: `get_tool` is `Dicts.Get` and `list_categories` is `Dicts.Keys` on the registry's tables, with no member of their own; the module-level registry with `register_tool`, `get_tool_registry` and `build_tool` is global state and is not modelled.
- BaseTools.ExecuteTool: hooks are identities. What a hook does, and the exception it may raise (logged and swallowed), are not modelled; the result is the list of hooks called.
- BaseTools.Retry: the `delay` sleep between attempts and the printed messages are not modelled; the attempts are a function from the attempt number to its outcome.
- BaseTools.RateLimited: the record of call times is shared by every function one `rate_limit(...)` decorator wraps; the model threads one record through the calls it is given, and each call's clock reading is a parameter.
- BaseTools.Build: the parameter types, descriptions and defaults, the examples and the version of a definition are not modelled.
- LlmClient: `LLMClient.chat_completion`, `_single_completion` and `_stream_completion` (core/llm_client.py:48-132) are not modelled. They call the OpenAI client over the network, time the call and retry after a one-second sleep. So are the request parameters they fill in from the settings, where `temperature or default` also replaces a temperature of 0. The reply text and the streamed chunks are parameters instead.
- LlmClient: `LLMResponse`'s usage, model name, finish reason and response time are not modelled; `GenerateText` returns the messages sent and the conversations afterwards, and the reply's content is a parameter.
- LlmClient: `Message`'s optional `name` and `function_call` are not modelled, because the service never sets them; the dictionary `chat_completion` builds from a message is network-side.
- LlmClient.Format: what `str.format` makes of the template is the `Rendering` parameter; format specifications, positional fields and attribute or index lookups inside a field are not modelled.
- LlmClient.ListRepr: the missing variables are shown as Python's `repr` of a list of strings shows them in the ordinary case, in single quotes; a variable name that holds a quote or a backslash, which `repr` escapes, is not modelled.
- LlmClient.CallFunction: `json.loads` of the arguments, the call of the registered function (awaited or not) and `json.dumps` of its result are the `Call` parameter; only the `json.dumps` of the `{"error": …}` object is modelled. The callable itself is not stored in `Definition`.
- LlmClient.GenerateText: the history it keeps is stated for `max_history` 0 and above; for a negative bound `AddMessage` states what each of the two additions keeps.
- LlmClient.StreamGenerate: the chunks are consumed in one loop; that the history is saved only once the caller has read the whole stream is not modelled.
- LlmClient: the module-level `llm_service` and `get_llm_service` are global state and are not modelled; `Conversations` with `DefaultMaxHistory` is what `LLMService` starts with.
- main_enhanced.py is not part of this model: the orchestration of character configuration, relationships, chapter roles, scenes and quality scoring sits between language-model calls.
- modules/save_story.py is not part of this model: it maps language-model output into the data models and saves it, which is parsing and file I/O.
- modules/writing/chapter_writer.py is not part of this model: the scene plan, the dialogue and description ratios and the emotional-arc string surround the chapter text the language model writes.
- modules/plot/conflict_generator.py is not part of this model: its conflict records and batch schedule wrap language-model descriptions.
- modules/worldbuilding/world_generator.py is not part of this model: the merge and the line parsers work on language-model replies.
- modules/tools/name_generator.py is not part of this model: the name parser and the random name database serve language-model naming.
- modules/character/improved_character_naming.py is not part of this model: its extraction and fallback names wrap language-model naming.
- modules/character/enhanced_character_creator.py is not part of this model: the character quality checker scores language-model characters with floating-point weights.
- main_novel_generator.py is not part of this model: fallback chapters, statistics and the batch schedule orchestrate language-model generation.
- modules/writing/description_writer.py is not part of this model: the sensory-detail and literary-device scans read language-model descriptions.
- modules/character/character_creator.py is not part of this model: the importance table, batch type cycling and random ids surround language-model characters.
- ConfigManager: reading files and parsing YAML and JSON are the `Files` parameter. `present` says which files exist, `parsed` is what the YAML or JSON loader returns (`{}` on any error, as the loaders catch it), `env` is the `.env` file's lines or its read error, and `environ` is the process environment. A YAML or JSON file whose top level is not a mapping, for which `update` raises, is not modelled.
- ConfigManager: `config_dir` and the joining of `config_dir / f"{name}{ext}"` are not modelled: the path is `name + ext`, and `present` answers for the joined path.
- ConfigManager: `Suffix` follows `Path.suffix` as Python 3.12 computes it: the text from the last dot of the file name, when that dot is neither its first nor its last character. Other Python versions that treat such names differently are not modelled.
- ConfigManager: the pydantic schema classes (`AppSettings`, `LLMConfig`, `DatabaseConfig`, `MCPConfig`, `NovelConfig`, config/config_manager.py lines 162-220) are represented by their names. Whether the class accepts the data is the `accepts` parameter, and the fields, defaults and the validated object's contents are not modelled.
- ConfigManager: `get_config` is `Dicts.Get` on the cache and `get_all_configs` a copy of it, with no member of their own. The module-level `_config_manager` is the constant `Global`, not shared mutable state.
- ConfigManager: the `.env` loader's values are strings and the YAML and JSON values are `Json` values; `os.environ` is read once per call as the `environ` parameter.
- modules/writing/scene_generator.py is not part of this model: the scene elements and structure wrap language-model scene text.
