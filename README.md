# Closet: a Dafny model of the wardrobe page's table logic

The closet app is a single-user Streamlit page. It keeps three tables in session memory:
- the wardrobe (category, colour, style, size, image path);
- the wear log (date plus four clothing fields);
- the community board (title, content).

The tables are loaded from files at login and written back on logout or "save".
This project models the logic written inline in the page's menu branches:
- appending a wardrobe item;
- the weather-based outfit filter (rules tried in the order rain 비, cold 추움, hot 더움, clear 맑음; the first whose token occurs in the lowered text decides the rows kept);
- appending a wear-log entry, either copied from a wardrobe row or typed in freely;
- validating and appending a board post, and listing the board newest first;
- the `fillna('')` step applied to the image column on load;
- the colour and style counts (`value_counts`).

Modules:
- `Options`: an optional value, used for a missing cell or a missing file.
- `Text`: Python's `str.isspace`, `str.strip()`, `str.lower()` and `t in s`.
- `Wardrobe`: the wardrobe row, its stored form, the load-time normalisation and the CSV round trip of the image column.
- `Weather`: the rule table, the row filter and what the recommendation holds.
- `Analysis`: value counts, built as a tally in first-appearance order and then sorted by count, highest first.
- `Community`: posts, their validation and the display order.
- `Session`: the class `Closet`. Its `seq` fields are the three tables, and its methods are the page's actions.

The client method `Session.WearEntryIsSnapshot` shows that a wear entry copied from a row is a value snapshot. Its values stay the same when the wardrobe later grows.

Facts about the code that the model keeps:
- A missing backing file at login leaves that table as the session holds it (`Closet.Load`).
- A file that cannot be parsed raises an exception. It aborts the rest of the load; tables read before the bad file are already replaced, and the session is already marked as logged in (app.py:167-168). That path is not modelled (see below).
- The post form has a long and a short content field. The long one wins when it is not blank.
- The weather text is lowered with `str.lower()`.

## Model

| member | source | states |
|---|---|---|
| Text.TrimStartSpec | app.py:421-426 | trimming the front drops a prefix that is all white space and stops at the first other character |
| Text.TrimEndSpec | app.py:421-426 | trimming the end drops a suffix that is all white space and stops at the last other character |
| Text.Strip | app.py:420-426 | the stripped text is empty or starts and ends with a non-space character, and it is empty exactly when the input is all white space |
| Text.StripIsMiddle | app.py:420-427 | strip returns the middle part of any split into white space, a trimmed string and white space |
| Text.StripSplits | app.py:420-427 | the stripped form is a contiguous slice of the string with only white space before and after it |
| Text.StripIdempotent | app.py:422-427 | stripping an already stripped title or content changes nothing |
| Text.LowerKeepsOccurrence | app.py:317-320 | lowering the text neither creates nor destroys an occurrence of a token without ASCII letters |
| Weather.Filter | app.py:320-333 | the masked table is never longer than the wardrobe it was copied from |
| Weather.FilterMembers | app.py:320-333 | a row is in the result exactly when it is in the wardrobe and the rule's mask keeps it |
| Weather.FilterSelects | app.py:318-333 | the result is the subsequence of the wardrobe made of exactly the rows the mask keeps, in their original order |
| Weather.SelectsExtend | app.py:320-333 | a selection of a prefix extends by the next row exactly when the mask keeps it |
| Weather.FilterKeepsAll | app.py:335-336 | a rule that keeps every row returns the wardrobe unchanged |
| Weather.RecommendationCases | app.py:320-336 | rain token: outers or black/navy rows; else cold token: outers or tops that are not sporty; else hot token: tops that are not black/navy; otherwise (clear or no token) the whole wardrobe |
| Weather.RuleFor | app.py:320-335 | rain is chosen exactly when the rain token occurs, and no rule exactly when none of the four tokens occurs; `Weather.RecommendationCases` states the priority between the tokens |
| Weather.Keeps | app.py:321-333 | the row mask of each rule; `Weather.RecommendationCases` and `Weather.FilterSelects` state which rows the recommendation then holds and in which order |
| Weather.Recommendation | app.py:318-336 | the recommendation is made of wardrobe rows only and is never longer than the wardrobe; `Weather.RecommendationCases` states which rows per token |
| Weather.RuleForLowered | app.py:317-335 | the rule chosen for the text after the model's ASCII lowering is the rule chosen for the text as typed |
| Weather.RainAndClearExample | app.py:320-336 | rain keeps both an outer in blue and a black top; clear keeps every row |
| Weather.RainBeforeColdExample | app.py:320-328 | a text with both the rain and the cold token gets the rain mask only: a light top that the cold mask keeps is dropped |
| Wardrobe.Persist | app.py:44-45 | one stored row per wardrobe row, whose image cell is missing exactly when the path was ""; `Wardrobe.NormaliseAfterPersist` states the round trip |
| Wardrobe.Normalise | app.py:56-59 | one item per stored row with the same four clothing fields, a missing image becoming "" and a present one kept; `Wardrobe.NormaliseAfterPersist` and `Session.Closet.Load` use it |
| Wardrobe.NormaliseAfterPersist | app.py:56-59 | loading a saved wardrobe, with missing images filled with "", gives back the same rows |
| Analysis.BumpCounts | app.py:297-298 | one more occurrence raises that value's count by one and leaves every other bar as it was |
| Analysis.TallyCounts | app.py:297-298 | the tally has one bar per distinct value, each holding that value's number of rows, and the counts add up to the column length |
| Analysis.SortPermutes | app.py:297-298 | ordering the bars by count keeps exactly the same bars |
| Analysis.SortSorted | app.py:297-298 | the bars end up in order of count, highest first |
| Analysis.ValueCounts | app.py:297-298 | one bar per distinct value with exactly its number of occurrences, highest count first, counts summing to the column length |
| Community.PostContent | app.py:420-424 | the content is the stripped long field when that is not blank, else the stripped short field; it is empty exactly when both are blank |
| Community.ValidatePost | app.py:419-431 | a post results exactly when the title and the content are not blank; it holds the stripped title and the content, both non-empty and trimmed |
| Community.DisplayOrder | app.py:432-434 | the listed board has the same length and position k shows the k-th newest post |
| Community.NewestFirst | app.py:428-434 | an appended post is listed first, ahead of the board as it was listed before |
| Community.ValidatePostExamples | app.py:419-431 | a blank title or whitespace-only content is rejected; " T " with "hello" gives the post ("T", "hello") |
| Session.Closet.constructor | app.py:29-40 | a new session starts with an empty wardrobe, wear log and board |
| Session.Closet.Load | app.py:55-70 | each table whose file exists is replaced by it, the wardrobe after filling missing images with ""; a table without a file keeps its contents |
| Session.Closet.Save | app.py:44-50 | all tables are written whole; the saved wardrobe normalises back to the wardrobe; the session is unchanged |
| Session.Closet.AddItem | app.py:265-280 | the wardrobe grows by one row at the end with the given fields and image path ("" without an upload); earlier rows and the other tables are unchanged |
| Session.Closet.Recommend | app.py:311-336 | nothing is shown for an empty wardrobe or empty text; otherwise the filter of the lowered text's rule, equal to the filter for the text as typed; the wardrobe is not changed |
| Session.Closet.Analyse | app.py:294-298 | nothing for an empty wardrobe; otherwise the colour and style value counts, each adding up to the wardrobe length |
| Session.Closet.LogWear | app.py:369-391 | picking row i appends the date with row i's four fields; manual input appends the four typed fields; picking from an empty wardrobe appends nothing; the wardrobe and board are unchanged |
| Session.Closet.SubmitPost | app.py:419-431 | accepted exactly when title and content are not blank; an accepted post is appended last and listed first; a rejected one leaves the board unchanged |
| Session.SaveThenLoad | app.py:44-70 | saving and then loading the saved files gives back all three tables |

## Left out

- Streamlit widgets, forms, menus, the header, the sidebar and the rerun flow: presentation only.
- The hardcoded login check: a constant comparison outside the table logic.
- Reading and writing the CSV and JSON files. `Closet.Load` takes the parsed contents of each file, or None when the file is absent. `Closet.Save` returns what would be written.
- Parse errors of a present but malformed file: the code does not handle them; the exception ends the page run.
- Write failures on save: they would surface as I/O exceptions.
- pandas type inference on reload: empty cells outside the image column come back as NaN, numeric sizes as numbers, and wear dates as strings. Only the image column is modelled: `Wardrobe.PersistImage` writes "" as a missing cell (pandas reads an empty CSV cell back as NaN) and `Wardrobe.Normalise` fills it with "" again, as `fillna('')` does (`Wardrobe.Persist`).
- Analysis.ValueCounts: the counts add up to the column length only while no cell of the column is missing. `value_counts` drops NaN, and after a reload a blank colour or style cell is NaN; the model keeps it as "" and counts it.
- Session.Closet.Analyse: the same as `Analysis.ValueCounts`; the counts add up to the wardrobe length only while no colour or style cell is blank.
- Session.SaveThenLoad: the round trip is exact only while no category, colour, style or size cell is blank and no size reads back as a number; the model stores those four cells as they are.
- Writing the uploaded picture and building its timestamped filename: these depend on the clock and the filesystem. `Closet.AddItem` is given the path the picture was written to, or None when there was no upload.
- The user profile form and its file (`user_info`) and the avatar record with its base64 header image: not part of this model.
- The bar charts, the font setup and the calendar widget's event list: rendering and a foreign component.
- The `os.path.exists` checks before showing an image: a filesystem query at display time.
- Text.Lower: only the ASCII letters are lowered, not every cased character that Python's `str.lower()` maps. `Weather.RuleForLowered` proves only that this ASCII lowering leaves the rule unchanged. That the full `str.lower()` does too is an argument, not a proof: Hangul syllables are uncased, and no lower-case mapping produces or consumes one, so an occurrence of a token is neither created nor destroyed.
- Analysis.ValueCounts: nothing is stated about the order of bars with equal counts, which pandas leaves unspecified. The model puts them in first-appearance order.
- Session.Closet.LogWear: the select box offers the wardrobe's index labels. These are the positions 0 to n-1, because every append uses `ignore_index=True` and reloads use a fresh range index. So the model takes a position, and requires it to be in range when the wardrobe is not empty.
