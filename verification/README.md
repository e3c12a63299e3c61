# InventoryPal in Dafny

InventoryPal is a small Flask application. A logged-in user records inventory
rows (product id, name, quantity, arrival date, vendor `source`, box id, unit
price) and browses them. A summary dashboard totals quantity and value per
product name, filtered by vendor and arrival-date range. This project models
two parts of `app.py`:

- **The summary pipeline** (`summary`, app.py:113-143):
  - normalise the vendor parameter;
  - filter rows by vendor substring and inclusive date bounds in Python's
    string order;
  - group by exact product name, summing quantity and `quantity * unit_price`;
  - sort by name;
  - emit the three chart lists.
- **The store as a state machine**:
  - the `inventory` table as a map from product id to row, and the `users`
    table as a map from username to password hash;
  - the Flask session as an optional username;
  - each route as a transition of that state, behind the `login_required`
    gate (app.py:36-44).

Modules, one per file:

| file | module | contents |
|---|---|---|
| `wrappers.dfy` | `Wrappers` | `Option` |
| `seqs.dfy` | `Seqs` | sequences without repeats |
| `strings.dfy` | `Strings` | Python's `str` operations on ASCII text: ordinal order (`<=` on `str`), `lower()`, `strip()`, the substring test `in`, and the sorted elements of a finite set of strings |
| `inventory.dfy` | `Inventory` | the products table: insert with a primary key, update, delete, select by id, select all |
| `accounts.dfy` | `Accounts` | the users table and password verification, with the hash check as a parameter |
| `summary.dfy` | `Summary` | the summary pipeline and its reference definitions: the sums over the kept rows, and the names occurring in them |
| `summary_order.dfy` | `SummaryOrder` | the summary depends only on which rows the database returns, not on their order |
| `app.dfy` | `App` | the request handlers, the login gate, and traces of requests |
| `summary_examples.dfy` | `SummaryExamples` | worked dashboard examples over three rows |

## Model

| member | source | states |
|---|---|---|
| `Strings.LessEqIffWitness` | app.py:129-130 | String `<=` holds exactly when the two strings agree up to some position, after which the left one either ends or has the smaller code point. This is Python's ordinal comparison of `str`. |
| `Strings.LessEqTotal` | app.py:139 | Any two strings are comparable, so sorting by name is well defined. |
| `Strings.LessEqTransitive` | app.py:139 | The string order is transitive. |
| `Strings.LessEqAntisymmetric` | app.py:139 | Two strings each `<=` the other are equal, so distinct names have a strict order. |
| `Strings.LessTrichotomy` | app.py:139 | Of two strings, exactly one holds: they are equal, the first is smaller, or the second is smaller. |
| `Strings.Lower` | app.py:126 | `lower()` keeps the length, maps each ASCII capital to its small letter, and keeps every other character. |
| `Strings.LowerIdempotent` | app.py:114 | Lower-casing twice is lower-casing once. |
| `Strings.Strip` | app.py:114 | `strip()` returns a contiguous slice of the input. Everything before and after the slice is whitespace, and the result neither starts nor ends with whitespace. |
| `Strings.StripEmptyIffBlank` | app.py:114 | `strip()` gives the empty string exactly when every character of the input is whitespace. |
| `Strings.StripIdempotent` | app.py:114 | Stripping twice is stripping once. |
| `Strings.Contains` | app.py:128 | `p in s` holds exactly when `p` occurs in `s` at some position. |
| `Summary.NormalizeVendor` | app.py:114 | The normalised vendor is the stripped parameter with each character lower-cased: same length as the strip, and character `k` is the lowered character `k` of the strip. It is empty exactly when the parameter is blank, and it contains no capital letter. |
| `Summary.Keep` | app.py:128-130 | The row test of the filter loop: the vendor is empty or occurs in the lower-cased source, and each non-empty date bound holds inclusively in string order. `Summary.KeepMeans` states its meaning with the substring test spelled out as an occurrence. |
| `Summary.Filter` | app.py:124-131 | The filter loop: the rows passing `Keep`, in input order. Its counts are stated by `Summary.FilterCounts` and its members by `Summary.FilterMembership`. |
| `Summary.FilterCounts` | app.py:124-131 | Each row passing the test occurs in the filtered list as often as in the input; every other row does not occur at all. |
| `Summary.FilterMembership` | app.py:124-131 | A row is kept exactly when it is an input row and all three conditions hold. (1) The vendor is empty or occurs in the lower-cased source. (2) The start date is empty or is at most the arrival date. (3) The end date is empty or is at least the arrival date. |
| `Summary.NoFilterKeepsAll` | app.py:114-131 | With a blank vendor and no date bounds, every row is kept, in order. |
| `Summary.Accumulate` | app.py:134-136 | One iteration of the `defaultdict` loop over a list of per-name lines. Its effect on totals, names and distinctness is stated by `Summary.AccumulateTotals`, `Summary.AccumulateNames` and `Summary.AccumulateDistinct`. |
| `Summary.AccumulateTotals` | app.py:134-136 | One loop iteration adds the row's quantity and quantity times price to its own name's totals, starting from the `[0, 0.0]` default, and leaves every other name alone. |
| `Summary.AccumulateNames` | app.py:134-136 | One loop iteration adds the row's name to the grouped names. |
| `Summary.AccumulateDistinct` | app.py:133-136 | One loop iteration keeps one line per name. |
| `Summary.Group` | app.py:133-138 | The grouped lines have distinct names. They are exactly the names of the kept rows, and each name's line holds the total quantity and total value over the rows with that name. |
| `Summary.SortByName` | app.py:139 | Sorting is a permutation of the lines. |
| `Summary.SortByNameSorted` | app.py:139 | The sorted lines are in ascending name order, and distinct names stay distinct. |
| `Summary.SortedDistinctIsStrict` | app.py:138-139 | Sorted lines with distinct names are strictly ascending by name. |
| `Summary.Chart` | app.py:141-143 | The label, quantity and value lists have one entry per line, and entry `i` of each is the matching field of line `i`. |
| `Summary.SortedGroupSpec` | app.py:133-139 | The sorted groups are strictly ascending by name and cover exactly the kept names. Each line carries the quantity and value sums over its name's kept rows. |
| `Summary.Summarize` | app.py:113-143 | The table is strictly ascending by name and has one line per name among the rows passing the filter. Each line holds that name's sums over exactly those rows. The three chart lists are aligned with the table. No rows give four empty lists. |
| `SummaryOrder.StrictlySortedUnique` | app.py:139 | Two tables strictly ascending by name with the same lines are equal. |
| `SummaryOrder.SumsIgnoreOrder` | app.py:133-136 | The quantity and value sums for a name are the same for any reordering of the rows. |
| `SummaryOrder.SummaryTableUnique` | app.py:133-139 | Any two tables that summarise the same rows, up to order, are equal. |
| `SummaryOrder.SummaryIgnoresRowOrder` | app.py:118-143 | Two listings holding the same rows in different orders give the same dashboard. |
| `SummaryOrder.SummaryRowsCharacterized` | app.py:124-143 | Any table that is strictly sorted by name, covers exactly the kept names, and holds each name's sums is the dashboard's table. |
| `SummaryOrder.SameRowsSameSummary` | app.py:118-122 | Two repeat-free listings with the same members give the same dashboard. |
| `Inventory.Add` | app.py:59-66 | Inserting a taken product id fails. A fresh id adds exactly one row, holding the form under that id, and every other row is unchanged. |
| `Inventory.Edit` | app.py:87-91 | Updating an existing id replaces that row's non-id fields and keeps its id. An unknown id changes nothing. Every other row is unchanged either way. |
| `Inventory.Delete` | app.py:105 | The id is gone afterwards, exactly that key is removed, and every remaining row is unchanged. |
| `Inventory.Get` | app.py:95-96 | Selecting by id finds a row exactly when the id is stored, and then it is the stored row. |
| `Inventory.DeleteIdempotent` | app.py:105 | Deleting twice is the same as deleting once. |
| `Inventory.AddThenDelete` | app.py:59-105 | Adding a fresh id and then deleting it restores the store. |
| `Inventory.EditThenGet` | app.py:87-96 | After an update of a stored id, on a store where every row is filed under its own id, the edit form for that id shows a row with that id and the submitted fields. An update of an unknown id stores nothing, so the form then shows no product. |
| `Inventory.Enumerate` | app.py:73-76 | Selecting all rows yields every stored row and nothing else, one entry per stored id. When every row is stored under its own id, which `App.Handle` preserves, no row is repeated. |
| `Accounts.Register` | app.py:156-165 | A taken username is refused. A fresh one is added with its hash, and every other user's hash is unchanged. |
| `Accounts.Verify` | app.py:176-178 | A login is accepted exactly when a row for the username exists and the hash check accepts the password against the stored hash. An unknown user and a wrong password are not told apart. |
| `Accounts.RegisterThenVerify` | app.py:156-183 | After registering with a hash that accepts a password, logging in with that password succeeds. |
| `Accounts.RegisterKeepsOtherLogins` | app.py:159-183 | Registration never changes whether another user's credentials verify. A refused registration changes no one's. |
| `App.LogInStep` | app.py:171-184 | A login with a stored user whose hash accepts the password puts that user in the session. Any other login is refused and changes nothing. |
| `App.RegisterStep` | app.py:154-166 | Registration adds a fresh user with the given hash, or refuses a taken name with the state unchanged. Products and session are not touched. |
| `App.AddStep` | app.py:52-67 | The add route inserts the row under a fresh id, or refuses a taken id with the state unchanged. Users and session are not touched. |
| `App.ListStep` | app.py:70-77 | The inventory page lists every stored row and nothing else. It has one entry per stored id and changes nothing. When every row is stored under its own id, which `App.Handle` preserves, no row is repeated. |
| `App.SummaryStep` | app.py:111-149 | The summary route renders a dashboard and changes nothing. |
| `App.Serve` | app.py:47-192 | The handlers past the gate. Home changes nothing; add, register and login are the steps above. The edit form reads the row; the edit POST updates and reports success; delete removes; the summary renders; logout empties the session. The edit and delete effects are stated by `App.LoggedInEditAndDelete`. |
| `App.Handle` | app.py:36-44 | A protected route with no user in the session is refused with the state unchanged. The frame rules: only registration writes users; only add, edit and delete write products; only login and logout change the session. Logout always empties the session, and every product stays stored under its own id. |
| `App.LoggedOutCannotWrite` | app.py:36-44 | Starting logged out, any sequence of requests without a login leaves the products unchanged and the session empty. |
| `App.RegisterThenLogIn` | app.py:152-183 | Registering a new user and then logging in with a password their hash accepts opens their session. |
| `App.DuplicateAddChangesNothing` | app.py:58-66 | A logged-in add with a stored id is refused, and the whole state is unchanged. |
| `App.LoggedInEditAndDelete` | app.py:80-108 | Logged in: the edit form shows the stored row or none; the edit POST applies the update and reports success; delete removes the row. |
| `App.DeleteTwiceIsDeleteOnce` | app.py:100-108 | Sending the same delete twice leaves the state the first one left. |
| `App.SummaryOfAnyListing` | app.py:118-143 | When every row is stored under its own id, which `App.Handle` preserves, a logged-in user's dashboard is the summary of whichever repeat-free listing of the stored rows the database returns. |
| `SummaryExamples.NoFilterExample` | app.py:113-143 | Over three sample rows, with no filters, the table is Gadget (1, 5.0) then Widget (5, 56.0). Widget's value is 2·10.0 + 3·12.0. The chart lists are `["Gadget", "Widget"]`, `[1, 5]` and `[5.0, 56.0]`. |
| `SummaryExamples.VendorExample` | app.py:114-131 | The vendor filter "v1" keeps only the rows whose source contains it, which are the two Widget rows. |
| `SummaryExamples.StartDateExample` | app.py:129 | Start date 2024-02-01 keeps only the February row. |
| `SummaryExamples.EmptyInventoryExample` | app.py:133-143 | An empty inventory gives an empty dashboard. |

## Left out

- Flask routing, `render_template`, `flash` messages and redirects. Each handler yields a `Reply` naming what it produced. The failures that are flashed become `Error` values.
- The GET renders of `/register` and `/login` (app.py:166, 184). They change no state. `RegisterUser` and `LogIn` stand for the POSTs.
- SQLite connections, cursors, commits and `init_db` (app.py:14-33). The two tables are modelled as maps.
- The order of `SELECT` results. SQLite does not promise one. `Inventory.Enumerate` fixes ascending product id, and `SummaryOrder.SummaryIgnoresRowOrder` and `App.SummaryOfAnyListing` show the dashboard is the same for every order.
- werkzeug's `generate_password_hash` and `check_password_hash`. The salt is random, so the registration request carries the hash already made. The check is a function parameter.
- Python float arithmetic. Unit price and the value sums are exact `real`s, so rounding in `qty * price` and its accumulation is not modelled.
- SQLite's type coercion of form strings into the INTEGER and REAL columns. Quantity is already an `int` and the price already a number. A missing form field (a 400 error in Flask) is not modelled.
- Unicode in `str.lower()` and `str.strip()`. Only ASCII capitals are lowered. Only the ASCII whitespace that `str.isspace` accepts is stripped: code points 9-13 and 28-32.
- The date parameters are used unstripped and compared as strings, as in the code. No date parsing takes place.
- The secret key, the upload folder and `app.run` (app.py:9-11, 195-196).
- An edit POST for an unknown product id matches no row and still reports success (app.py:87-93). The model does the same.
- An edit GET for an unknown id renders the page with no product (app.py:95-97). The model follows the code: `EditPage(None)`.
- `logout` sits behind `login_required` (app.py:188). A logged-out `/logout` is refused by the gate and changes nothing.
- App.SummaryStep: its contract says only that the dashboard is rendered with the state unchanged. The dashboard's contents are stated by `Summary.Summarize` and connected to the route by `App.SummaryOfAnyListing`.
