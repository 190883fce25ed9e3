# career-compass: the quiz and the company search, modelled in Dafny

career-compass is a client-side career-guidance web app. Almost all of it is
static UI. Two pages hold real logic, and this project models both.

- **Interview Preparation** (`interview_prep.dfy`, module `InterviewPrep`).
  This is a multiple-choice quiz. The page's six state variables
  (`selectedRole`, `isTestStarted`, `currentQuestion`, `selectedAnswer`,
  `score`, `showResults`) become one immutable `QuizState` record. The three
  click handlers become pure functions of the snapshot they read:
  - `StartTest` models `handleStartTest`.
  - `NextQuestion` models `handleNextQuestion`.
  - `Restart` models `handleRestart`.

  Two more functions model the inline setters: `SelectRole` (role cards) and
  `SelectAnswer` (radio group). `Enabled` says which clicks the page can
  receive in a given state, since a button that is not rendered cannot be
  clicked. `Run` replays any sequence of enabled clicks. The model also
  covers:
  - the role catalog and the question bank, including the fallback to the
    software set;
  - the progress pair "question k of n";
  - the "Next Question" / "Finish Test" caption;
  - the three-tier verdict on the results card.
- **Industry Insights** (`industry_insights.dfy`, module `IndustryInsights`).
  This page covers:
  - the static company table;
  - the search filter, which keeps a company when the lowered query occurs in
    its lowered name or lowered industry;
  - the list/detail toggle (`OpenCompany`, `Back`);
  - the sample openings, which read the company's first location.

  Module `Text` (`text.dfy`) provides the string operations the filter uses:
  - ASCII `toLowerCase`;
  - `includes`, as a left-to-right search, proved equal to "occurs at some
    index";
  - the sub-sequence relation.

  Module `Wrappers` (`wrappers.dfy`) holds `Option`, which models the
  nullable state values.

### Behaviour worth knowing

- **Start does not clear the pending answer.** `handleStartTest`
  (src/pages/InterviewPrep.tsx:50-57) leaves `selectedAnswer` alone. A retake
  therefore opens on question 1 with the last question's answer still
  selected. "Next" is live at once and scores that stale answer
  (`RetakeKeepsPendingAnswer`).
- **An existing key wins even if its array is empty.** The lookup at
  src/pages/InterviewPrep.tsx:61 is
  `sampleQuestions[role] || sampleQuestions.software`, and an empty array is
  truthy in JavaScript. So the software set replaces only a missing key.
- **The score stays at or below `currentQuestion` while the test runs.** The
  last answer is scored only on the step that shows the results card
  (`ReachableBounds`).

## Model

| member | source | states |
|---|---|---|
| InterviewPrep.QuestionsFor | src/pages/InterviewPrep.tsx:61 | The resolved list is always one of the bank's sets. A role id that is a key of the bank gets exactly its own set. |
| InterviewPrep.FallbackForUnlisted | src/pages/InterviewPrep.tsx:84 | No role, or a role id with no key in the bank, resolves to the software questions. |
| InterviewPrep.RolesResolve | src/pages/InterviewPrep.tsx:19-40 | Every role in the catalog resolves to exactly two questions. Each has at least two options and a correct index inside them. |
| InterviewPrep.HasRole | src/pages/InterviewPrep.tsx:51 | The `if (selectedRole)` test: true only for a present role, and true for every id of the catalog. |
| InterviewPrep.SelectRole | src/pages/InterviewPrep.tsx:109-115 | A role card, clickable only before a test starts, records that role id. The id is truthy, and no other field changes. |
| InterviewPrep.StartTest | src/pages/InterviewPrep.tsx:50-57 | Without a truthy role, the state is unchanged. With one, the test starts at question 0 with score 0 and results hidden. Role and pending answer are kept. |
| InterviewPrep.SelectAnswer | src/pages/InterviewPrep.tsx:182-184 | Picking a valid option of the question on screen sets the pending answer to it. Nothing else changes. |
| InterviewPrep.NextQuestion | src/pages/InterviewPrep.tsx:59-73 | No pending answer means no change. Otherwise the score goes up by exactly 1 on a correct answer and stays the same on a wrong one. Before the last question, the position advances and the answer is cleared. On the last question, results are shown and position and answer are kept. |
| InterviewPrep.Restart | src/pages/InterviewPrep.tsx:75-82 | From any state, the result is exactly the initial state. |
| InterviewPrep.ScreenOf | src/pages/InterviewPrep.tsx:100-216 | The role selection shows exactly when no test is started. The results card shows exactly when a test is started and results are on. Otherwise the question card shows. |
| InterviewPrep.Enabled | src/pages/InterviewPrep.tsx:100-250 | Role cards are clickable only on the role selection. Options and "Next" are clickable only on the question card. Start/Retake never work on the question card, and Exit never works on the role selection. Conversely, "Start Test" is always present on the role selection. "Next" and "Exit Test" are always present on the question card. "Retake" and "Choose Another Role" are always present on the results card. |
| InterviewPrep.InitialInv | src/pages/InterviewPrep.tsx:43-48 | The initial `useState` values satisfy the reachability invariant. |
| InterviewPrep.StepPreservesInv | src/pages/InterviewPrep.tsx:50-82 | Every enabled click preserves the invariant. This covers: position within the list, score at most the position while running, score at most the length once finished, a pending answer always a valid option, and results only ever shown with an answer pending. |
| InterviewPrep.RunPreservesInv | src/pages/InterviewPrep.tsx:50-82 | The invariant holds after any valid click sequence. |
| InterviewPrep.ReachableBounds | src/pages/InterviewPrep.tsx:50-73 | From a fresh page, under any click sequence: `currentQuestion` stays within the list, the score is at most `currentQuestion` while the test runs, and the score is at most the list's length on the results card. |
| InterviewPrep.AnsweringScores | src/pages/InterviewPrep.tsx:59-73 | Answering every remaining question ends on the results card. The score grows by exactly the number of correct answers. |
| InterviewPrep.SessionScore | src/pages/InterviewPrep.tsx:50-57 | Starting or retaking with a role, then answering all questions, gives exactly the number of correct answers, whatever the previous score. |
| InterviewPrep.RetakeKeepsPendingAnswer | src/pages/InterviewPrep.tsx:53-55 | A retake from the results card resets position and score but keeps the old answer. An immediate "Next" scores that answer against question 1. |
| InterviewPrep.ExitForgetsSession | src/pages/InterviewPrep.tsx:75-82 | Exit, then choose a role and start, gives the same state as a first-time start. Nothing of the old session leaks. |
| InterviewPrep.Classify | src/pages/InterviewPrep.tsx:236-240 | Perfect iff score equals total. Strong iff not perfect and 10·score ≥ 7·total (70%, boundary inclusive). Keep practicing otherwise. |
| InterviewPrep.ClassifyMonotone | src/pages/InterviewPrep.tsx:236-240 | A higher score, up to the total, never gets a lower tier. |
| InterviewPrep.ClassifyExamples | src/pages/InterviewPrep.tsx:238 | 2/2 is Perfect, 1/2 is Keep practicing, 7/10 is Strong (the boundary), 6/10 is Keep practicing. |
| InterviewPrep.NoStrongOnTwoQuestions | src/pages/InterviewPrep.tsx:236-240 | On any reachable results card, with the two-question list, "Strong" is never the verdict. |
| InterviewPrep.SoftwareScenario | src/pages/InterviewPrep.tsx:59-73 | Role "software" answered 1 then 0 ends on results with score 1 and verdict Keep practicing. |
| InterviewPrep.NextButtonLabel | src/pages/InterviewPrep.tsx:211 | At a valid position, the caption is "Finish Test" exactly on the last question. |
| InterviewPrep.FinishLabelCompletes | src/pages/InterviewPrep.tsx:211 | "Finish Test" shows exactly on the last question. With an answer pending, it shows exactly when the next click leads to the results card. |
| InterviewPrep.Progress | src/pages/InterviewPrep.tsx:85 | Progress is the pair (k, n), with 1 ≤ k ≤ n while the position is valid. k equals n exactly when "Finish Test" shows. |
| Text.Lower | src/pages/IndustryInsights.tsx:99-100 | Lowering keeps the length, lowers each ASCII capital and leaves every other character alone. No capital remains. |
| Text.LowerIdempotent | src/pages/IndustryInsights.tsx:99-100 | Lowering a lowered string changes nothing. |
| Text.IncludesIffOccurs | src/pages/IndustryInsights.tsx:99 | `includes` holds exactly when the needle occurs at some index of the haystack. This covers both directions, including the empty needle. |
| Text.Includes | src/pages/IndustryInsights.tsx:99 | The empty needle is found in every string, and a needle longer than the haystack is never found. |
| IndustryInsights.Matches | src/pages/IndustryInsights.tsx:98-101 | A company matches iff the lowered query occurs at some index of the lowered name or of the lowered industry. |
| IndustryInsights.CompaniesWellFormed | src/pages/IndustryInsights.tsx:19-92 | Every company in the table has at least one location, and all ids are distinct. |
| IndustryInsights.Filter | src/pages/IndustryInsights.tsx:98-101 | A company is in the result iff it is in the table and matches by name or industry. Every result entry matches. The result is an order-preserving sub-sequence of the table. |
| IndustryInsights.EmptyQueryKeepsAll | src/pages/IndustryInsights.tsx:98-101 | The empty query keeps every company, in order. |
| IndustryInsights.InitialShowsAll | src/pages/IndustryInsights.tsx:95-101 | On a fresh page (empty query), the list shows the whole table. |
| IndustryInsights.CaseInsensitive | src/pages/IndustryInsights.tsx:99-100 | Queries that differ only in ASCII letter case give the same result. |
| IndustryInsights.LowerQuerySameResult | src/pages/IndustryInsights.tsx:100 | A query and its lowered form give the same result. |
| IndustryInsights.FilterNarrows | src/pages/IndustryInsights.tsx:98 | If every match of q2 is a match of q1, the result for q2 is a sub-sequence of the result for q1. |
| IndustryInsights.LongerQueryNarrows | src/pages/IndustryInsights.tsx:98-101 | If lowered q1 occurs in lowered q2, the result for q2 is a sub-sequence of the result for q1. |
| IndustryInsights.ExtendedQueryNarrows | src/pages/IndustryInsights.tsx:98-101 | If q1 is a substring of q2, the result for q2 is a sub-sequence of the result for q1. |
| IndustryInsights.TypeQuery | src/pages/IndustryInsights.tsx:122-127 | Typing in the list view replaces the query and leaves the list view open. |
| IndustryInsights.OpenCompany | src/pages/IndustryInsights.tsx:133-137 | Clicking a card, which is a table row matching the query, selects it and keeps the query. That card is on the visible list. |
| IndustryInsights.Back | src/pages/IndustryInsights.tsx:171 | "Back to Companies" clears the selection and keeps the query. |
| IndustryInsights.BackAfterOpen | src/pages/IndustryInsights.tsx:137-171 | Open, then back, returns exactly the previous view, with the same visible list. |
| IndustryInsights.ViewEnabled | src/pages/IndustryInsights.tsx:116-171 | Typing works only in the list view, and "Back" only in the detail view. A card can be opened exactly when the list view shows and the card is on the visible list. |
| IndustryInsights.ViewStepPreservesInv | src/pages/IndustryInsights.tsx:116-137 | Every enabled action keeps the selected company, if any, a row of the table. |
| IndustryInsights.ViewRunPreservesInv | src/pages/IndustryInsights.tsx:95-171 | After any valid sequence of actions, the selected company, if any, is still a row of the table. |
| IndustryInsights.SampleOpenings | src/pages/IndustryInsights.tsx:270-274 | There are four sample openings. The first, second and fourth are at the company's first location, and the third is "Remote". |
| IndustryInsights.OpenCompanyHasLocation | src/pages/IndustryInsights.tsx:271-274 | From a fresh page, under any valid sequence of actions, an open company has a first location, so `locations[0]` is always defined. |

## Left out

- src/pages/Index.tsx is not part of this model: it is a static marketing page with no state.
- src/components/Navigation.tsx is not part of this model: its only logic is a path-equality check and a menu toggle.
- src/pages/ResumeAnalysis.tsx is not part of this model: it is a file upload, a timer and a fixed result object.
- JSX rendering, icons, colours, logos and employee-count strings are left out. Role and company records keep only the fields the logic reads.
- Percentages (`Math.round` of floating-point ratios) are not modelled. Progress is stated as the integer pair (k, n).
- Classify: the 70% test is written `10 * score >= 7 * total`. JavaScript computes `total * 0.7` in floating point. The two agree for the two-question list. Rounding of the float product for large totals is not modelled.
- Text.Lower: only ASCII capitals are lowered. Full Unicode `toLowerCase` (for example, characters whose lowercase form has a different length) is not modelled.
- QuestionsFor: keys inherited from the object prototype (such as `"constructor"`) are not modelled. Role ids only ever come from the catalog.
- SelectAnswer: the radio group's `parseInt(value)` plumbing is not modelled. The answer is taken to be the index of the clicked option.
- React batching and re-rendering are not modelled. Each handler is one atomic step from the snapshot it reads, which matches how its setters use that snapshot.
- Enabled: the `disabled` attributes of "Start Test" and "Next Question" are not part of the enabling condition. The handlers' own guards make those clicks no-ops anyway, and the model proves that.
