# File-viewer bot: link generator and spreadsheet pager

This project models the two pieces of logic in the Telegram bot `bot.py`:

- **The link generator** (`generate_tme_links`, used by `/addlink` and
  `/addusername`). It splits free text on runs of commas and whitespace,
  skips empty pieces, cleans each token (spaces removed, every leading `@`
  stripped) and emits one `https://t.me/...` URL per token. The URLs are
  joined with newlines. Module `Links`, file `links.dfy`.
- **The per-chat spreadsheet pager** (`excel_data`, `process_excel`,
  `send_page`, `page_nav`). A map from chat id to a session holds an
  uploaded table and a page index. Loading a table sets the page to 0.
  The `prev` button moves back only above page 0. The `next` button always
  moves forward. Rendering a page computes the row window, the column, the
  numeric cells of that window and which navigation buttons to show.
  Module `Pager`, file `pager.dfy`.

The link generator is written as a method with a loop (`LinksOfPieces`)
proved against the reference functions `Tokens` and `Lines`. The session
map is a class, `Pager.ExcelStore`, whose methods update a
`map<int, Session>` field. Page rendering is the pure function
`Pager.Render`.

Main results:

- Splitting the output on newlines gives back exactly one line per
  non-empty token, in input order (`OutputIsOneLinePerToken`).
- The tokens cover the whole input except its separators
  (`TokensCoverInput`).
- The output is empty exactly when there is no token or the mode is
  invalid (`EmptyOutputIff`).
- Paging from the first page to the last shows every numeric cell of the
  selected column exactly once, in row order (`ScrollAll`).
- `next` keeps the page in range exactly when the current page shows a
  next button (`StepKeepsRangeIff`). Old messages keep their buttons, so a
  stale `next` can still move past the last page. That page renders an
  empty window and the placeholder (`StaleNextLeavesRange`, `PastTheEnd`).

Behaviour of `bot.py` worth noting:

- Username mode emits a bare `https://t.me/<name>`, with no `+`.
- `lstrip("@")` removes every leading `@`, not just one.
- Number mode keeps a `+` the token already has and adds one only when
  there is none. It does not strip and re-add the `+`.
- `next` is not clamped to the last page.
- There is no column navigation. The column is always the second one when
  the table has more than one column, otherwise the first.
- `PAGE_SIZE` is the constant 100.
- A chat with no session answers "Session expired" rather than raising an
  error.

## Model

| member | source | states |
|---|---|---|
| `Links.Split` | bot.py:29 | `re.split` on runs of `[,\s\n]` always yields at least one piece; what the pieces are is stated by `SplitPieceHasNoSep` and `SplitKeepsTokens` |
| `Links.SplitPieceHasNoSep` | bot.py:29 | no piece produced by the split contains a comma or a whitespace character |
| `Links.Tokens` | bot.py:29-33 | every token is non-empty and free of separators |
| `Links.SplitKeepsTokens` | bot.py:29-33 | dropping the empty pieces of `re.split` leaves exactly the maximal non-empty separator-free runs, in order |
| `Links.TokensCoverInput` | bot.py:29-33 | concatenating the tokens in order gives the input with its separators removed, so nothing else is lost or reordered |
| `Links.Strip` | bot.py:32 | `strip()` leaves a string with no whitespace unchanged |
| `Links.RemoveSpacesKeepsOthers` | bot.py:35 | `replace(" ", "")` leaves no space and keeps every other character exactly as often as it occurs |
| `Links.RemoveSpacesAppend` | bot.py:35 | removing spaces from a concatenation removes them from each part, so the kept characters stay in their order |
| `Links.RemoveSpacesOfChar` | bot.py:35 | a single character is dropped exactly when it is a space |
| `Links.RemoveSpacesOfSpaceFree` | bot.py:35 | a string without spaces is left unchanged |
| `Links.SeparatorsArePythonWhitespaceAndComma` | bot.py:29-32 | `\s` and `str.isspace` match exactly Python's 29 whitespace characters, and a separator of the split is a comma or one of them |
| `Links.CleanDropsLeadingAt` | bot.py:35 | the cleaned token is the suffix after the leading run of `@`: it does not start with `@`, and everything dropped was `@` |
| `Links.LStrip` | bot.py:35 | `lstrip(c)` drops exactly the leading run of `c`: the result is a suffix that does not start with `c`, and everything dropped was `c` |
| `Links.PieceIsClean` | bot.py:32-35 | on a split piece, `strip()` and `replace(" ", "")` change nothing |
| `Links.UsernameLink` | bot.py:37-39 | a username link is `https://t.me/` followed by the cleaned name |
| `Links.NumberLink` | bot.py:40-48 | a number link is `https://t.me/+` followed by the number without its one leading `+`, so a `+` is added only when missing |
| `Links.LineShape` | bot.py:37-48 | every line starts with `https://t.me/`; in username mode the cleaned token follows, in number mode a `+` follows |
| `Links.Lines` | bot.py:37-48 | a valid mode yields one line per token; any other mode yields no line |
| `Links.LinesStep` | bot.py:37-48 | appending a token appends exactly that token's line in username or number mode, and nothing in any other mode |
| `Links.LinksOfPieces` | bot.py:30-48 | the loop over the split pieces produces exactly the lines of the non-empty pieces, in order |
| `Links.GenerateTmeLinks` | bot.py:28-49 | the output is the newline join of one link per token of the text |
| `Links.JoinLinesShape` | bot.py:49 | the join starts with the first line, followed by a newline when more lines come, and is empty only for no lines or one empty line |
| `Links.SplitJoinLines` | bot.py:49 | splitting the newline join of newline-free lines on `\n` gives the lines back |
| `Links.JoinLinesEmpty` | bot.py:49 | the join of non-empty lines is empty exactly when there are no lines |
| `Links.LineHasNoSep` | bot.py:35-48 | a link built from a separator-free token contains no comma or whitespace |
| `Links.OutputIsOneLinePerToken` | bot.py:28-49 | the output splits into exactly one line per token, in input order, and no line contains a comma or whitespace |
| `Links.EmptyOutputIff` | bot.py:29-33 | the output is empty exactly when the text has no token or the mode is neither `username` nor `number` |
| `Links.UsernameLines` | bot.py:35-39 | in username mode each line is `https://t.me/` plus the token with all leading `@` removed; the name never starts with `@` |
| `Links.NumberLines` | bot.py:40-48 | in number mode every line starts with `https://t.me/+`, and a number given with or without its `+` yields the same link |
| `Links.AddLinkReply` | bot.py:80-84 | `/addlink` replies with the number links, or with "No valid numbers found." exactly when the text has no token |
| `Links.AddUsernameReply` | bot.py:92-96 | `/addusername` replies with the username links, or with "No valid usernames found." exactly when the text has no token |
| `Pager.EmptyMeansNoCells` | bot.py:126 | `df.empty` holds exactly for a table without a single cell |
| `Pager.TotalPages` | bot.py:147-148 | `ceil(rows / PAGE_SIZE)` is the least page count whose pages cover every row, and it is 0 only for no rows |
| `Pager.WindowEnd` | bot.py:150-151 | the window `[page*PAGE_SIZE, min(start+PAGE_SIZE, rows))` is non-empty exactly for existing pages, never passes the last row, holds at most one page, is full on every page but the last, and ends at the last row on the last page and past it |
| `Pager.SelectedColumn` | bot.py:155-160 | the shown column is index 1 exactly when the table has more than one column, otherwise index 0, and it always exists |
| `Pager.Column` | bot.py:156 | a column selection holds the cell of that column for every row, in row order |
| `Pager.Coerced` | bot.py:163 | coercion keeps exactly the values of the cells that coerce, and is empty exactly when none coerces |
| `Pager.WindowValues` | bot.py:152-163 | the window's values are the coercions of the selected column's cells in rows `[start, end)`, in row order, and nothing for an empty window |
| `Pager.Render` | bot.py:146-193 | window bounds and page count as above, ending at the last row from the last page on; column label is index + 1; the numbers are the window's coercible cells in row order; placeholder exactly when no cell in the window coerces; prev button iff `page > 0` with label `start`; next button iff `page < total_pages - 1` with label `end + 1` |
| `Pager.Step` | bot.py:215-218 | `prev` decrements only above page 0, `next` always increments, the table never changes |
| `Pager.ExcelStore.constructor` | bot.py:22 | the session map starts empty |
| `Pager.ExcelStore.ProcessExcel` | bot.py:119-133 | an empty table is refused and nothing changes; otherwise the chat's session is replaced by the table at page 0, which is in range, and page 0 is shown |
| `Pager.ExcelStore.SendPage` | bot.py:138-146 | nothing is shown for a chat without a session; otherwise its current page is rendered |
| `Pager.ExcelStore.PageNav` | bot.py:202-227 | noop changes nothing; a chat with no session is told it expired and nothing changes; otherwise only that chat's page moves by `Step` and the new page is shown; other chats are untouched |
| `Pager.LoadedIsInRange` | bot.py:126-131 | a stored table has at least one page, and page 0 is in range |
| `Pager.StepKeepsRangeIff` | bot.py:185-193 | from a page in range, `prev` stays in range and `next` stays in range exactly when the page shows a next button |
| `Pager.PastTheEnd` | bot.py:150-152 | a page past the end has an empty window at the end of the table, shows the placeholder and no next button, but still shows a prev button |
| `Pager.StaleNextLeavesRange` | bot.py:217-224 | the last page shows no next button, yet a `next` from an older message moves out of range onto an empty page with the placeholder |
| `Pager.CoercedAppend` | bot.py:163 | coercion of a concatenation is the concatenation of the coercions, so row order is kept |
| `Pager.ScrollStep` | bot.py:146-163 | each further page contributes exactly its own window's values |
| `Pager.ScrollPrefix` | bot.py:146-163 | pages 0 to k-1 together show, in order, the numbers of the column's first `min(k*PAGE_SIZE, rows)` rows |
| `Pager.ScrollAll` | bot.py:146-166 | paging through all pages shows every numeric cell of the selected column exactly once, in row order |
| `Pager.ThreePages` | bot.py:146-193 | with 250 rows there are three pages with buttons `101 >`, `< 100`/`201 >`, and the last window is rows 201 to 250 with no next button |

## Left out

- Telegram calls (`send_message`, `reply_to`, `answer_callback_query`, `get_file`, `download_file`), keyboard objects and the Markdown caption text are not modelled. They are foreign I/O and formatting. Replies are returned as values (`LoadReply`, `NavReply`, reply strings).
- Rendering the numbers as decimal text inside a code block is not modelled. `Content` carries the integers, or `NoNumbers` for the placeholder "No valid numbers found in this range.".
- `pd.read_excel` decoding and its exception path are not modelled. `ProcessExcel` receives the decoded table, which must be rectangular (as every DataFrame is).
- `pd.to_numeric(...).astype('int64')` is not modelled. It involves float parsing and truncation, so it is the parameter `coerce`, applied cell by cell. Three consequences are not captured. The 64-bit range is not modelled. A cell that parses to a non-finite float such as `inf` survives `dropna`, and `astype('int64')` then raises inside `send_page`: in `page_nav` the page has already moved (bot.py:215-226), and in `process_excel` the session is already stored when the error reply is sent (bot.py:131-136), whereas the model returns `Shown` or `Loaded`. And `to_numeric` converts the whole window at once, so when a non-numeric cell forces float64, integers above 2^53 lose precision, which a per-cell `coerce` does not express.
- `Pager.TotalPages`: Python computes `ceil(rows / 100)` with float division. The model uses exact integer ceiling, which agrees for every row count a spreadsheet can hold.
- Command parsing (`message.text.split(maxsplit=1)` and its `IndexError` reply), the `/view` reply check and the file-extension check are not modelled. They are handler glue. The handlers receive the text after the command.
- The `/start` welcome message and the Flask webhook routes are not modelled. They are I/O and network plumbing.
- `page_nav` mutates the stored session dict in place. The model replaces the chat's entry in the map instead, which is the same observable state because nothing else holds that dict.
- Concurrent webhook deliveries are not modelled. Transitions are sequential.
- The unused `user_data` map is not modelled.
- Links.Strip: its contract states only that `strip()` leaves a whitespace-free string unchanged, which is the only case the split pieces reach. It does not characterise stripping of other strings.
