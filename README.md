# SV Portfolio Bot: verified model of the portfolio logic

`sv_bot.py` is a Telegram bot that keeps one user's stock holdings and SIPs
(systematic investment plans) in `portfolio.json`. It values the holdings
against live prices on `/portfolio`. Every morning at 09:00 it checks the
day of the month and sends a SIP reminder only on the 11th, 18th and 19th,
and only for the plans whose names match that day. This project models the logic under the transport, in Dafny:

- **Store** (`store.dfy`) holds the document `{stocks: [Holding], sip: [Sip]}`.
  - `/addstock` and `/addsip` update the first entry whose name matches up to
    case. When no entry matches, they append a new one. The `for … break … else`
    loop is a method proved against a specification function.
  - `/deletestock` and `/deletesip` keep exactly the entries whose name differs
    up to case, in order. Nothing removed means "not found".
- **Valuation** (`valuation.dfy`) covers the `/portfolio` loop.
  - Each holding is looked up in `ticker_map` by exact name, then priced by an
    oracle. It gets a "no data", "no price" or priced line.
  - `total_invested` counts every holding. `total_current` counts only the
    priced ones.
  - A zero cost basis on a priced line, or a zero invested total (for example,
    an empty portfolio), divides by zero when the numbers are plain numbers.
    The handler's catch-all then replies with a failure, and the model returns
    `Err(ZeroDivision)`. This treats the oracle's price as a plain number. The
    live price is a numpy scalar, and numpy division by zero yields inf or nan
    instead of raising. So with a live price, only the empty portfolio, or one
    where nothing is priced and the invested total is zero, fails in Python
    (see "## Left out").
- **Schedule** (`schedule.dfy`) is the body of `job`. Given the day of the month,
  it returns the reminders for the plans named "icici corporate bond" (day 11),
  "nippon equity" (day 18) and "goal sip" (day 19), in stored order.
- **Bot** (`bot.dfy`) holds the handlers. They are methods of a class whose field
  is the file's content. They check the argument count and parse the numbers
  before they load anything. A bad command therefore leaves the file untouched.
  A delete that removes nothing does not save.
- **Text** (`text.dfy`) provides `str.lower()`, restricted to ASCII, and
  `str.split()`.

One consequence is proved. The arguments of a command come from `str.split()`,
so no argument contains a blank. All three reminder names contain a blank.
So `/addsip` and `/deletesip` can never create, change or remove a plan that
triggers a reminder (`Schedule.AddSipKeepsReminders`,
`Schedule.DeleteSipKeepsReminders`). Only a plan written into `portfolio.json`
by other means is ever reminded about.

Where the intended design and the code disagree, the model follows the code:

- The intended design excludes unmapped and unpriced holdings from both totals.
  The code adds every holding's cost to `total_invested` (line 110, before the
  mapping check). With no prices at all, the report therefore shows the whole
  cost basis as a loss (`Valuation.NothingPricedIsTotalLoss`).
- The intended design asks for an undefined percentage instead of a fault when the
  invested total is zero. The code has no guard, so an empty stock list makes
  `/portfolio` fail as a whole (`Valuation.Faults`).
- The intended design asks for a trigger day stored on each plan. The code
  hard-codes three (name, day) pairs. The model has what the code has. The
  design's "never twice in one day" rule needs no code of its own:
  `schedule.every().day.at("09:00")` (line 243) moves the job's next run to the
  following day after each run, so the 60-second polling of `run_pending`
  (lines 245-248) runs `job` at most once a day.

## Model

| member | source | states |
|---|---|---|
| `Text.Lower` | sv_bot.py:152 | lower-casing keeps the length and maps each character on its own (ASCII letters to lower case, everything else kept) |
| `Text.LowerIdempotent` | sv_bot.py:152 | lower-casing an already lower-cased name changes nothing |
| `Text.LowerKeepsSpaces` | sv_bot.py:239-241 | a lower-cased name has a separator exactly where the name has one |
| `Text.WordEnd` | sv_bot.py:141 | the token starting at i runs to the next separator or to the end, with no separator inside |
| `Text.Split` | sv_bot.py:141 | every token `split()` yields is non-empty and contains no separator |
| `Text.SplitInterleave` | sv_bot.py:141 | for any text made of words and runs of separators (runs between words non-empty, of any length and any mix of blanks, tabs and newlines; runs at the ends possibly empty), `split()` returns exactly the words, in order |
| `Store.EmptySnapshot` | sv_bot.py:24-25 | the fallback document has an empty stock list and an empty SIP list |
| `Store.FindName` | sv_bot.py:151-152 | the reported index is a case-insensitive match with no match before it; None exactly when nothing matches |
| `Store.UpsertedHoldings` | sv_bot.py:151-157 | on a match at the first matching index k, the length is kept, entry k keeps its stored name and takes the new qty and buy price, and every other entry is unchanged; with no match, the new holding is appended at the end |
| `Store.UpsertHolding` | sv_bot.py:151-157 | the `for … break … else append` loop computes exactly the upserted list |
| `Store.UpsertHoldingFinds` | sv_bot.py:151-157 | after an add, the name is found and its entry carries the qty and buy price just given |
| `Store.UpsertHoldingLatestWins` | sv_bot.py:151-157 | two adds of the same name (in any case) leave one entry, with the second add's values and the first stored name |
| `Store.UpsertHoldingIdempotent` | sv_bot.py:151-157 | repeating the same add command changes nothing |
| `Store.UpsertHoldingKeepsUnique` | sv_bot.py:151-157 | if no two holdings share a name up to case, the same holds after an add |
| `Store.DeletedHoldings` | sv_bot.py:174 | a holding survives exactly when it was present and its name differs up to case; the list never grows |
| `Store.DeletedHoldingsAppend` | sv_bot.py:174 | deleting distributes over concatenation, so survivors keep their relative order |
| `Store.DeletedHoldingsNotFound` | sv_bot.py:173-180 | the length is unchanged (the "not found" reply) exactly when no holding matches, and the list is then unchanged |
| `Store.DeletedHoldingsIdempotent` | sv_bot.py:174 | deleting the same name twice is deleting it once |
| `Store.DeleteUndoesUpsertHolding` | sv_bot.py:151-180 | a delete after an add of the same name gives the same list as the delete alone |
| `Store.DeletedHoldingsKeepsUnique` | sv_bot.py:174 | deleting keeps names unique up to case |
| `Store.UpsertedSips` | sv_bot.py:197-202 | on the first match, only that SIP's amount is replaced (name, position and length kept, all others unchanged); with no match, the new SIP is appended |
| `Store.UpsertSip` | sv_bot.py:197-202 | the `for … break … else append` loop computes exactly the upserted list |
| `Store.UpsertSipFinds` | sv_bot.py:197-202 | after an add, the name is found and its entry carries the amount just given |
| `Store.UpsertSipLatestWins` | sv_bot.py:197-202 | two adds of the same name (in any case) leave one entry, with the second amount and the first stored name |
| `Store.UpsertSipIdempotent` | sv_bot.py:197-202 | repeating the same add command changes nothing |
| `Store.UpsertSipKeepsUnique` | sv_bot.py:197-202 | an add keeps SIP names unique up to case |
| `Store.DeletedSips` | sv_bot.py:219 | a SIP survives exactly when it was present and its name differs up to case; the list never grows |
| `Store.DeletedSipsAppend` | sv_bot.py:219 | deleting distributes over concatenation, so survivors keep their relative order |
| `Store.DeletedSipsNotFound` | sv_bot.py:218-225 | the length is unchanged (the "not found" reply) exactly when no SIP matches, and the list is then unchanged |
| `Store.DeletedSipsIdempotent` | sv_bot.py:219 | deleting the same name twice is deleting it once |
| `Store.DeleteUndoesUpsertSip` | sv_bot.py:197-225 | a delete after an add of the same name gives the same list as the delete alone |
| `Store.DeletedSipsKeepsUnique` | sv_bot.py:219 | deleting keeps SIP names unique up to case |
| `Valuation.PercentOf` | sv_bot.py:125 | the percentage times the cost basis is 100 times the gain; with a positive cost basis it is non-negative exactly when the gain is, with a negative one exactly when the gain is not positive |
| `Valuation.NegativeCostBasisFlipsPercent` | sv_bot.py:122-126 | with a negative cost basis (`int()` and `float()` at lines 146-147 accept negative numbers), a priced holding that gained shows the up marker of line 126 next to the negative percentage of line 125 |
| `Valuation.Classify` | sv_bot.py:105-127 | a holding gets "no data" iff its exact name is not in `ticker_map`, "no price" iff it is mapped and the oracle gives None, and otherwise the live price, gain = qty·live − qty·buy price, pct = gain / invested · 100, and the up marker iff gain ≥ 0 |
| `Valuation.Lines` | sv_bot.py:105-127 | there is one line per holding |
| `Valuation.LinesAt` | sv_bot.py:105-127 | line j is the classification of holding j, so the order is the stored order |
| `Valuation.TotalsAppend` | sv_bot.py:110-123 | both totals are sums: each distributes over concatenation of holding lists |
| `Valuation.NothingPricedIsTotalLoss` | sv_bot.py:110-129 | when no holding is priced, the current total is 0 and the net gain is minus the invested total, because unpriced holdings still count as invested |
| `Valuation.PricedAtCostBreaksEven` | sv_bot.py:110-129 | when every holding is priced at its buy price, the current total equals the invested total |
| `Valuation.Faults` | sv_bot.py:102-131 | with no stocks the aggregate percentage divides by zero, so `/portfolio` fails; when no holding is priced, it fails exactly when the invested total is zero |
| `Valuation.TotalsNonNegative` | sv_bot.py:110-123 | `total_invested` is not negative when no holding's cost basis is, and `total_current` is not negative when no priced holding's market value is |
| `Valuation.TenAtHundredQuotedAt120` | sv_bot.py:109-126 | 10 units at 100 quoted at 120: invested 1000, current 1200, gain 200, 20 percent, up |
| `Valuation.ValueHolding` | sv_bot.py:106-127 | one pass of the holdings loop: fails exactly when the holding is priced with a zero cost basis; otherwise yields its classified line and what it adds to `total_current` (its live value when priced, 0 when it has no data or no price) |
| `Valuation.Valuate` | sv_bot.py:95-131 | fails exactly when a priced line or the total has a zero cost basis; otherwise it returns the SIP list, the lines in stored order, `total_invested` over all holdings, `total_current` over priced ones, net gain = current − invested, its percentage, and the up marker iff net gain ≥ 0 |
| `Schedule.Due` | sv_bot.py:239-241 | a plan can be due only on the 11th, 18th or 19th, and only if its name contains a separator, since all three hard-coded names contain a blank |
| `Schedule.Reminders` | sv_bot.py:238-242 | every reminder carries the stored name and amount of a due plan in the list, every due plan is reminded, and there are never more reminders than plans |
| `Schedule.Job` | sv_bot.py:236-242 | the loop of `job` sends exactly the selected reminders, in order |
| `Schedule.RemindersAppend` | sv_bot.py:238-242 | selection distributes over concatenation, so reminders follow the stored order, one per due plan |
| `Schedule.QuietDays` | sv_bot.py:239-241 | on any day other than 11, 18 and 19 nothing is sent |
| `Schedule.DaySelectsItsPlans` | sv_bot.py:238-242 | on the 11th, 18th and 19th the reminders are, as a sequence, one reminder per plan whose lower-cased name is "icici corporate bond", "nippon equity" and "goal sip" respectively, carrying its stored name and amount, in stored order and with multiplicity |
| `Schedule.WordIsNeverDue` | sv_bot.py:239-241 | a name without a blank is never due on any day |
| `Schedule.AddSipKeepsReminders` | sv_bot.py:197-202 | adding or updating a SIP under a one-word name leaves every day's reminders unchanged |
| `Schedule.DeleteSipKeepsReminders` | sv_bot.py:219 | deleting by a one-word name leaves every day's reminders unchanged |
| `Bot.Args` | sv_bot.py:141 | every argument is a non-empty word without separators |
| `Bot.CommandArgsSpaced` | sv_bot.py:141-142 | with leading, trailing or repeated separators around and between the words, the arguments are still exactly the words after the command, so the argument count checked at line 142 is the number of words |
| `Bot.PortfolioFile.Load` | sv_bot.py:20-25 | a missing or unreadable file reads as `{stocks: [], sip: []}`; otherwise the stored document is returned |
| `Bot.PortfolioFile.Save` | sv_bot.py:27-29 | the whole document replaces the file and is what the next load returns |
| `Bot.PortfolioFile.AddStock` | sv_bot.py:139-162 | a wrong argument count gives the usage reply, and an unparsable qty or price gives the failure reply; in both cases the file is untouched; otherwise the file holds the loaded document with the upserted stock list |
| `Bot.PortfolioFile.DeleteStock` | sv_bot.py:165-183 | a wrong argument count gives the usage reply with the file untouched; if nothing is removed, the reply is not-found and nothing is saved; otherwise the file holds the filtered list |
| `Bot.PortfolioFile.AddSip` | sv_bot.py:187-207 | the same gate as for stocks, then the upserted SIP list is saved; no day's reminders change |
| `Bot.PortfolioFile.DeleteSip` | sv_bot.py:210-228 | the same gate and not-found rule as for stocks; no day's reminders change |
| `Bot.PortfolioFile.Portfolio` | sv_bot.py:93-135 | the command fails exactly when the loaded document's valuation divides by zero; otherwise it reports the document's SIPs and the two totals, and is up iff current ≥ invested |
| `Bot.PortfolioFile.Job` | sv_bot.py:235-242 | the job on a given day sends exactly the reminders selected from the loaded SIP list |

## Left out

- Text.Lower: lower-cases ASCII letters only. Python's `str.lower()` also folds non-ASCII letters.
- Valuation.ValueHolding: treats the oracle's price as a plain number, so a priced holding with a zero cost basis fails with `Err(ZeroDivision)`. `get_live_price` (line 40) returns a numpy scalar, and numpy division by zero at line 125 gives inf or nan instead of raising, so Python would print the line.
- Valuation.Valuate: the same plain-number reading. Once any holding is priced, `net_gain` at line 129 is a numpy scalar, so a zero `total_invested` at line 131 gives inf or nan instead of a failure. Python fails only for an empty portfolio, or when nothing is priced and the invested total is zero. The model also fails in the numpy cases, where the bot would reply with a report showing "inf%" or "nan%".
- Bot.PortfolioFile.Portfolio: states the failure condition, the SIPs and the totals only. The lines and the percentage are stated on `Valuation.Valuate`, which it calls.
- Telegram transport: replies, handler registration, `/start`, `/help`, and message text and emoji formatting. A reply is an outcome tag (`Done`, `Usage`, `Failed`, `NotFound`), and a report is a value.
- `round(...)` in the displayed numbers is formatting and is not modelled. Money is exact `real` arithmetic, not binary floating point. A NaN or infinite price or amount (`float("nan")`) has no counterpart.
- `/market` and `/news` are HTTP and market-data calls with no logic of their own.
- `get_live_price` is a parameter `string -> Option<real>`. Within one valuation the same symbol always gets the same answer. The live service could answer twice differently.
- `int(...)` and `float(...)` are parameters (`IntParser`, `RealParser`). None stands for the ValueError they raise.
- JSON file I/O: the file is a field holding `None` (missing or unparsable) or a typed document. Records with missing keys or wrong types, and documents without a `stocks` or `sip` key (which `setdefault`/`get` treat as empty lists), are not represented. A failing write is not modelled.
- The `schedule` 09:00 trigger, the polling thread, `time.sleep` and the wall clock are left out. The day of the month is a parameter of `Job`, and the race between the job thread and the handlers is not modelled.
- Schedule.Job: sends every selected reminder. In the source, an exception inside `job` stops the run at that plan: a failed `send_message` (line 232) or a SIP record without a `name` or `amount` key (lines 239-242). Nothing in `job`, `run_schedule` (lines 245-248) or the `schedule` library catches it, so the reminder thread ends and no reminder is ever sent again. The model has no failing sends and no malformed records, so it does not capture this.
- Keep-alive, environment variables and `infinity_polling` are hosting and configuration concerns.
