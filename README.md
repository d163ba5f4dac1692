# fullbalance: the dashboard and form logic, modelled in Dafny

fullbalance is a personal-finance web app. Users record income and expense
transactions against accounts (wallets), and a dashboard summarises them. This
project models the computations in the app's components that decide what the
user sees or stores, and proves what they promise:

- **Monthly expenses chart** ("Gastos por Mês"). It builds zero-filled month
  buckets, either for the last five months or for every month of a date window,
  then folds the transactions into income (`entradas`) and expense (`saidas`)
  totals. The bucket loops are methods with loop invariants. They are proved
  against a specification function.
- **Monthly summary card** ("Resumo Mensal"). It groups transactions by
  year-month and labels each group "<Mês> <yyyy>". It then sorts the groups and
  shows only the current month unless a filter is active. The dashboard
  passes no `isFilterActive` prop, so there the card always shows the current
  month alone.
- **`calculatePercentageChange`**. It takes the relative change in percent,
  rounded half-up to a tenth, and applies special rules when the previous
  value is zero.
- **The add/edit transaction form**. This covers:
  - when the "initial balance" option is offered;
  - the preload from an edited record;
  - the ordered validation messages;
  - the record handed to the store.

  The form is a class whose methods update its fields. The transactions
  page, the form's only caller, renders it without a `transactions` list
  (src/app/(main)/transactions/page.tsx:400-404), so the form sees none. There
  the option is offered on every new transaction, and nothing keeps a second
  initial balance out of the store.
- **`getCategoryIcon`**. An exact keyword match is tried first. Failing that,
  the first keyword the category contains wins. Failing both, a default icon
  is used. Matching ignores case.
- **`darkenColor`**. It computes the hover shade of the theme colour: each
  channel is parsed with `parseInt(…, 16)`, scaled with `Math.floor`, and
  written back as two hexadecimal digits.
- **Small display rules**:
  - the recent-transactions list: account names with an "N/A" fallback, the
    "Hoje"/"Ontem" relative day, category text, icon key and amount sign;
  - the pagination bar's range and buttons;
  - the header's avatar initial.

The two modules `Records` and `Text` hold the shared pieces:
- the record shapes of `Transaction` and `Account`;
- local calendar days and year-month indices (`year * 12 + month`);
- per-month totals;
- the JavaScript string built-ins the components call: `toLowerCase`,
  `toUpperCase`, `includes`, `String(n)` and `padStart`.

Amounts are exact reals. The current day is a parameter wherever the source
reads the clock.

## Model

| member | source | states |
|---|---|---|
| Records.PreviousDay | src/components/dashboard/RecentTransactionsList.tsx:12-13 | the day before a valid day is a valid day, rolling back over month and year ends |
| Records.NextOfPrevious | src/components/dashboard/RecentTransactionsList.tsx:12-13 | stepping back one day and then forward one day returns to the same day |
| Records.PreviousOfNext | src/components/dashboard/RecentTransactionsList.tsx:12-13 | stepping forward one day and then back one day returns to the same day |
| Records.MonthIndexRoundTrip | src/components/dashboard/MonthlyExpensesChart.tsx:53-54 | a year-month index splits into the year and month that `getFullYear`/`getMonth` report, which join back to the same index; a year and month are recovered from their index |
| Records.MonthsOf | src/components/dashboard/MonthlySummaryCard.tsx:38-40 | the set holds the month of every transaction and no other month |
| Records.AmountInEmptyMonth | src/components/dashboard/MonthlyExpensesChart.tsx:64-74 | a month in which no transaction is dated has zero totals of both kinds |
| Records.SumOverMonthsConserves | src/components/dashboard/MonthlyExpensesChart.tsx:64-74 | over distinct months, the per-month totals add up to the total of the transactions dated in those months |
| Records.KindSumInCovering | src/components/dashboard/MonthlySummaryCard.tsx:38-53 | restricting totals to a set of months that covers every transaction loses nothing |
| Records.KindsSplitTotal | src/components/dashboard/MonthlyExpensesChart.tsx:68-72 | over any set of months, the income total plus the expense total is the total of all amounts dated in those months |
| Text.ToLower | src/utils/categoryIcons.tsx:42 | `toLowerCase` keeps the length and lowers each character independently |
| Text.ToLowerIdempotent | src/utils/categoryIcons.tsx:42 | lower-casing twice is lower-casing once |
| Text.UpperOf | src/components/layout/Header.tsx:27-28 | `toUpperCase` of one character: a small letter becomes the single capital that lower-cases back to it; "ß" becomes "SS", "ÿ" "Ÿ" and "µ" "Μ"; any other character is unchanged; the result never starts with a small letter |
| Text.ContainsIffOccurs | src/utils/categoryIcons.tsx:51 | `includes` holds exactly when the keyword occurs at some offset |
| Text.Decimal | src/components/ui/PaginationControls.tsx:45-47 | `String(n)` is a non-empty string of digits with no leading zero unless n is 0 |
| Text.ParseDecimalOfDecimal | src/components/ui/PaginationControls.tsx:43 | reading back a numeral gives the number it was written from |
| Text.PaddedDecimalRoundTrip | src/components/dashboard/MonthlySummaryCard.tsx:64 | a zero-padded year is all digits and reads back as the same year |
| MonthlyExpensesChart.MonthRange | src/components/dashboard/MonthlyExpensesChart.tsx:40-49 | the window lists `hi - lo + 1` consecutive months starting at `lo`, and is empty when `hi < lo` |
| MonthlyExpensesChart.EarliestMonth | src/components/dashboard/MonthlyExpensesChart.tsx:37 | `Math.min` over the dates is absent exactly for no transactions; otherwise it is the month of some transaction and no later than any |
| MonthlyExpensesChart.StartMonth | src/components/dashboard/MonthlyExpensesChart.tsx:37 | a bounded window has no start exactly when there is neither a start date nor a transaction |
| MonthlyExpensesChart.FillMonths | src/components/dashboard/MonthlyExpensesChart.tsx:40-49 | the `while` loop creates one zero bucket per month from the start month to the end's month, in order, each named after its month |
| MonthlyExpensesChart.LastFiveMonths | src/components/dashboard/MonthlyExpensesChart.tsx:52-60 | the `for` loop creates zero buckets for the five months ending with the current one, oldest first, across year ends |
| MonthlyExpensesChart.MonthsBack | src/components/dashboard/MonthlyExpensesChart.tsx:53 | `new Date(year, month - i, 1)` falls exactly `i` months before the current month |
| MonthlyExpensesChart.Accumulate | src/components/dashboard/MonthlyExpensesChart.tsx:64-74 | folding adds no bucket, and each bucket ends holding its month's income total in `entradas` and the total of everything else in `saidas` |
| MonthlyExpensesChart.ChartSpec | src/components/dashboard/MonthlyExpensesChart.tsx:30-77 | one bucket per window month, in window order, named after its month and holding that month's income and non-income totals; five buckets without date bounds, none with only an end date and no transactions |
| MonthlyExpensesChart.ChartData | src/components/dashboard/MonthlyExpensesChart.tsx:30-77 | the computed chart data equals the specification: one bucket per window month, in window order |
| MonthlyExpensesChart.DefaultWindowIsLastFiveMonths | src/components/dashboard/MonthlyExpensesChart.tsx:50-60 | without date bounds there are exactly five buckets, the consecutive months ending now, oldest first |
| MonthlyExpensesChart.DefaultWindowEndsNow | src/components/dashboard/MonthlyExpensesChart.tsx:53-59 | the last default bucket carries the current month's abbreviation |
| MonthlyExpensesChart.BoundedWindowCoversEveryMonth | src/components/dashboard/MonthlyExpensesChart.tsx:35-49 | with a date bound there is one bucket per month from the start's month to the end's month inclusive, empty months included, and none when the end's month comes first |
| MonthlyExpensesChart.NoStartNoBuckets | src/components/dashboard/MonthlyExpensesChart.tsx:37-41 | an end date with no start date and no transactions gives no buckets |
| MonthlyExpensesChart.WindowIsChronological | src/components/dashboard/MonthlyExpensesChart.tsx:41-49 | buckets come out in creation order, each month one after the previous |
| MonthlyExpensesChart.EmptyMonthIsZero | src/components/dashboard/MonthlyExpensesChart.tsx:43-47 | a window month with no transactions is shown with both totals zero |
| MonthlyExpensesChart.BucketTotalOfMonths | src/components/dashboard/MonthlyExpensesChart.tsx:64-74 | the buckets' `entradas + saidas` sum to the per-month income and expense totals over the window |
| MonthlyExpensesChart.ChartConservesTotals | src/components/dashboard/MonthlyExpensesChart.tsx:64-74 | the buckets together hold exactly the amounts of the transactions dated in window months; all others are ignored |
| MonthlySummaryCard.FirstAppearanceIsDistinctMonths | src/components/dashboard/MonthlySummaryCard.tsx:36-45 | the map's keys are the distinct months that have transactions, each once |
| MonthlySummaryCard.GroupByMonth | src/components/dashboard/MonthlySummaryCard.tsx:36-53 | the `forEach` keeps keys in first-appearance order, and each month's entry holds its income total and the total of everything else |
| MonthlySummaryCard.CapitalizeAscii | src/components/dashboard/MonthlySummaryCard.tsx:61 | capitalising a month name adds no space and keeps different names different |
| MonthlySummaryCard.Label | src/components/dashboard/MonthlySummaryCard.tsx:56-66 | a label is the month's name with a capital first letter (lower-casing it gives the name back), a space, and at least four digits that read back as the era year |
| MonthlySummaryCard.LabelInjective | src/components/dashboard/MonthlySummaryCard.tsx:56-66 | from year 1 on, different months get different labels |
| MonthlySummaryCard.Insert | src/components/dashboard/MonthlySummaryCard.tsx:71 | inserting into a sorted list keeps it sorted and adds exactly the new entry |
| MonthlySummaryCard.SortByRank | src/components/dashboard/MonthlySummaryCard.tsx:71 | the sort returns a permutation of its input in non-increasing comparator order |
| MonthlySummaryCard.InsertKeepsTotals | src/components/dashboard/MonthlySummaryCard.tsx:71 | inserting adds the entry's income and expense to the list's totals |
| MonthlySummaryCard.SortKeepsTotals | src/components/dashboard/MonthlySummaryCard.tsx:71 | sorting keeps the income and expense totals |
| MonthlySummaryCard.InsertStable | src/components/dashboard/MonthlySummaryCard.tsx:71 | an inserted entry goes ahead of the entries that rank equally, and every rank's entries keep their order |
| MonthlySummaryCard.SortStable | src/components/dashboard/MonthlySummaryCard.tsx:71 | the sort is stable: for every rank, the entries of that rank keep their input order |
| MonthlySummaryCard.MonthlySummaries | src/components/dashboard/MonthlySummaryCard.tsx:34-72 | the computed list is the labelled per-month summaries in first-appearance order, sorted |
| MonthlySummaryCard.SumsOverMonths | src/components/dashboard/MonthlySummaryCard.tsx:48-52 | summing the summaries of some months gives the per-month income and expense totals over them |
| MonthlySummaryCard.SummaryTotalsConserved | src/components/dashboard/MonthlySummaryCard.tsx:38-53 | income over all summaries equals the input's total income, and expense equals the total of everything else, after sorting |
| MonthlySummaryCard.OneSummaryPerMonth | src/components/dashboard/MonthlySummaryCard.tsx:36-45 | there is one summary per month that has transactions and none for any other month |
| MonthlySummaryCard.LabelsDistinct | src/components/dashboard/MonthlySummaryCard.tsx:56-66 | from year 1 on, no two summaries share a label |
| MonthlySummaryCard.UnsortedDistinct | src/components/dashboard/MonthlySummaryCard.tsx:56-68 | from year 1 on, the summaries are pairwise different |
| MonthlySummaryCard.FilterByLabel | src/components/dashboard/MonthlySummaryCard.tsx:85 | the filter keeps exactly the entries with the wanted label, each as often as before |
| MonthlySummaryCard.Displayed | src/components/dashboard/MonthlySummaryCard.tsx:76-87 | with a filter every summary is shown unchanged; without one, exactly those labelled like the current month |
| MonthlySummaryCard.CurrentLabel | src/components/dashboard/MonthlySummaryCard.tsx:81-83 | the label looked for is the current month's name with a capital first letter, a space, and `getFullYear()` unpadded: digits that read back as the year with no leading zero unless it is 0, or a minus sign for a negative year |
| MonthlySummaryCard.YearTextOfFourDigits | src/components/dashboard/MonthlySummaryCard.tsx:82 | from year 1000 on, `getFullYear()` and "yyyy" write the same digits |
| MonthlySummaryCard.CurrentLabelIsLabel | src/components/dashboard/MonthlySummaryCard.tsx:82-83 | from year 1000 on, the label looked for is the current month's label |
| MonthlySummaryCard.LabelPicksMonth | src/components/dashboard/MonthlySummaryCard.tsx:82-85 | only the summary of a month can carry that month's label, and it is present exactly when the month has transactions |
| MonthlySummaryCard.FilterKeepsOnly | src/components/dashboard/MonthlySummaryCard.tsx:85 | filtering a duplicate-free permutation on a label only one entry can carry leaves that entry alone, or nothing |
| MonthlySummaryCard.ShowsOnlyCurrentMonth | src/components/dashboard/MonthlySummaryCard.tsx:80-85 | without a filter the card shows the current month's summary if it has transactions, and nothing otherwise |
| MonthlySummaryCard.DisplaysAtMostOne | src/components/dashboard/MonthlySummaryCard.tsx:80-85 | without a filter at most one summary is shown, whatever the current year |
| MonthlySummaryCard.NoEarlyYearLabel | src/components/dashboard/MonthlySummaryCard.tsx:82-85 | before year 1000 the unpadded current year never matches a label |
| MonthlySummaryCard.SortedEntriesAreMonths | src/components/dashboard/MonthlySummaryCard.tsx:71 | every sorted entry is the summary of a month that has transactions |
| MonthlySummaryCard.SortedDistinct | src/components/dashboard/MonthlySummaryCard.tsx:71 | from year 1 on, the sorted list holds no entry twice |
| MonthlySummaryCard.MostRecentFirst | src/components/dashboard/MonthlySummaryCard.tsx:70-71 | when the comparator reads labels back as their months, the card lists each month once, most recent first |
| Calculations.Abs | src/utils/calculations.tsx:22 | `Math.abs` is non-negative and is the value or its negation |
| Calculations.Round | src/utils/calculations.tsx:25 | `Math.round` lies within half of its argument, halves rounded up |
| Calculations.PercentageChange | src/utils/calculations.tsx:9-28 | 0 when both values are 0; 100 when only the previous is 0; otherwise within half a tenth of the exact change, halves up; always a whole number of tenths |
| Calculations.EqualValuesNoChange | src/utils/calculations.tsx:11-25 | equal values, zero or not, give 0 |
| Calculations.ChangeFollowsSign | src/utils/calculations.tsx:22-25 | against a nonzero previous value, growth gives at least 0 and a decrease at most 0 |
| Calculations.MonotoneInCurrent | src/utils/calculations.tsx:22-25 | against a fixed nonzero previous value, the result never decreases as the current value grows |
| Calculations.WorkedValues | src/utils/calculations.tsx:9-28 | (0, 0) gives 0, (0, 50) gives 100, (100, 150) gives 50 and (100, 80) gives -20 |
| AddTransactionForm.HasInitialBalance | src/components/Transactions/AddTransactionForm.tsx:37-40 | holds exactly when some transaction has the category "initial_balance" |
| AddTransactionForm.OffersInitialBalance | src/components/Transactions/AddTransactionForm.tsx:113 | the checkbox is offered exactly on a new transaction while no transaction in the list the form receives has the sentinel category; at the transactions page that list is empty |
| AddTransactionForm.SentinelCount | src/components/Transactions/AddTransactionForm.tsx:37-40 | the number of sentinel transactions is zero exactly when `hasInitialBalance` is false |
| AddTransactionForm.Validate | src/components/Transactions/AddTransactionForm.tsx:67-82 | the message is that of the first failing check in the order amount, account, date, title, with no message exactly when all pass; the title is needed only when the record is not an initial balance |
| AddTransactionForm.BuildRecord | src/components/Transactions/AddTransactionForm.tsx:86-93 | an initial balance becomes "Saldo Inicial", income, "initial_balance"; any other record passes title, type and category through; amount, date and account always pass through |
| AddTransactionForm.PreloadState | src/components/Transactions/AddTransactionForm.tsx:42-61 | editing copies every field, with the option ticked exactly for the sentinel category; a new form is empty, dated today, an expense, on the first account or none |
| AddTransactionForm.EditRoundTrip | src/components/Transactions/AddTransactionForm.tsx:42-93 | saving an opened record unchanged validates exactly when it has a positive amount, an account, and a title or the sentinel; it then writes the same record unless it is a sentinel whose title or type differs |
| AddTransactionForm.NewFormNeedsAmount | src/components/Transactions/AddTransactionForm.tsx:53-70 | a fresh form fails with the amount message |
| AddTransactionForm.AtMostOneInitialBalance | src/components/Transactions/AddTransactionForm.tsx:86-93 | when the option is ticked only where offered, and the category is not typed as the sentinel, saving keeps at most one initial balance in the list the form receives (not in the store, see CallSiteAddsInitialBalance) |
| AddTransactionForm.HandTypedSentinelSlipsThrough | src/components/Transactions/AddTransactionForm.tsx:91 | a category typed in as "initial_balance" adds a second initial balance |
| AddTransactionForm.CallSiteAddsInitialBalance | src/components/Transactions/AddTransactionForm.tsx:36-40 | with no list received, as at the transactions page, the option is offered, and a ticked save adds one initial balance to the store whatever it already holds |
| AddTransactionForm.CallSiteSecondInitialBalance | src/components/Transactions/AddTransactionForm.tsx:86-93 | a store holding one initial balance gets a second one through the ticked option |
| AddTransactionForm.SentinelCountSnoc | src/components/Transactions/AddTransactionForm.tsx:37-40 | appending a record adds one to the sentinel count exactly when its category is the sentinel |
| AddTransactionForm.TransactionForm.constructor | src/components/Transactions/AddTransactionForm.tsx:26-34 | the hooks start empty, dated today, as an expense, with no account, not submitting and without an error |
| AddTransactionForm.TransactionForm.Preload | src/components/Transactions/AddTransactionForm.tsx:42-61 | the effect sets the fields to the preload state, leaving the option ticked only on a new form where it is offered or on an edited initial balance |
| AddTransactionForm.TransactionForm.SetInitialBalance | src/components/Transactions/AddTransactionForm.tsx:116-120 | ticking the offered checkbox changes only the option |
| AddTransactionForm.TransactionForm.Enter | src/components/Transactions/AddTransactionForm.tsx:135-191 | the inputs' setters replace the title, type, amount, account, category and date and change nothing else, so the option stays ticked only where allowed |
| AddTransactionForm.TransactionForm.Submit | src/components/Transactions/AddTransactionForm.tsx:63-108 | a failed check sets its message and saves nothing; otherwise the built record is added, or updated under the edited id, with no error when the store succeeds and the save error when it fails, and `isSubmitting` ends false; the fields never change |
| CategoryIcons.Lookup | src/utils/categoryIcons.tsx:45-47 | `iconMap[k]` is absent exactly when no key is `k`, and otherwise is the icon of an entry with key `k` |
| CategoryIcons.FirstContained | src/utils/categoryIcons.tsx:50-54 | the `for...in` loop finds nothing exactly when the category contains no key, and otherwise returns the icon of the first key, in table order, that it contains |
| CategoryIcons.GetCategoryIcon | src/utils/categoryIcons.tsx:39-57 | an empty category gets the default icon |
| CategoryIcons.CaseInsensitive | src/utils/categoryIcons.tsx:42 | a category and its lower-case form get the same icon |
| CategoryIcons.ExactMatch | src/utils/categoryIcons.tsx:45-47 | a category that is a keyword, in any case, gets that keyword's icon |
| CategoryIcons.KeysDistinct | src/utils/categoryIcons.tsx:18-34 | the table's keys are pairwise different |
| CategoryIcons.DefaultIffNoKeyword | src/utils/categoryIcons.tsx:39-57 | the default icon is chosen exactly when the category is empty or contains no keyword; otherwise, without an exact match, the icon is the first contained keyword's |
| CategoryIcons.NoDefaultInTable | src/utils/categoryIcons.tsx:18-37 | no table entry maps to the default icon |
| ThemeColor.HexChar | src/context/ThemeContext.tsx:100 | `toString(16)` writes a digit as a lower-case hexadecimal digit that reads back as the same value |
| ThemeColor.HexCharOfValue | src/context/ThemeContext.tsx:100 | reading a digit and writing it again gives its lower-case form |
| ThemeColor.HexDigits | src/context/ThemeContext.tsx:100 | `n.toString(16)` is a non-empty string of lower-case hexadecimal digits |
| ThemeColor.TrimStartIsSuffix | src/context/ThemeContext.tsx:92-94 | skipping leading white space leaves a suffix of the input, and leaves the input whole when it starts with anything else |
| ThemeColor.HexPrefixIsLongest | src/context/ThemeContext.tsx:92-94 | the digits read form the longest run of hexadecimal digits at the front |
| ThemeColor.ParseInt16 | src/context/ThemeContext.tsx:92-94 | `parseInt(s, 16)` is NaN exactly when no hexadecimal digit follows the white space, sign and "0x"; otherwise it is the value of the digit run, negated after "-" |
| ThemeColor.ParseInt16OfNumeral | src/context/ThemeContext.tsx:92-94 | white space, an optional sign, an optional "0x"/"0X", hexadecimal digits and any tail that does not continue them read as the digits' value, negated after "-" |
| ThemeColor.PaddedNegativeExample | src/context/ThemeContext.tsx:92-94 | `parseInt(" -f", 16)` is -15 |
| ThemeColor.RadixPrefixExample | src/context/ThemeContext.tsx:92-94 | `parseInt("0x1A", 16)` is 26 |
| ThemeColor.SignedTailExample | src/context/ThemeContext.tsx:92-94 | `parseInt("+ff;", 16)` is 255 |
| ThemeColor.NoDigitExample | src/context/ThemeContext.tsx:92-94 | `parseInt("zz", 16)` is NaN |
| ThemeColor.Substring | src/context/ThemeContext.tsx:92-94 | `substring` within the string's length is the slice between the two positions |
| ThemeColor.ToHex | src/context/ThemeContext.tsx:100 | the written channel always has two characters |
| ThemeColor.IgnoresTail | src/context/ThemeContext.tsx:92-94 | characters after the seventh, such as an alpha pair, make no difference |
| ThemeColor.Scale | src/context/ThemeContext.tsx:96-98 | NaN stays NaN; otherwise the result is the floor of `c * (100 - percent) / 100`, the largest whole number whose hundredfold does not exceed it |
| ThemeColor.Channel | src/context/ThemeContext.tsx:92-94 | a channel whose two characters are hexadecimal digits is their value, and NaN when the string ends before it |
| ThemeColor.DarkenColor | src/context/ThemeContext.tsx:91-103 | for any string and percentage the result has seven characters and starts with "#", each channel being written with two characters, NaN included |
| ThemeColor.ScaleBounds | src/context/ThemeContext.tsx:96-98 | for a percentage from 0 to 100 a channel stays between 0 and its old value |
| ThemeColor.ParseOfPair | src/context/ThemeContext.tsx:92-94 | two hexadecimal digits parse to their value |
| ThemeColor.ChannelsOfFormatted | src/context/ThemeContext.tsx:92-102 | the channels read from "#" and three pairs are those pairs, parsed |
| ThemeColor.ToHexOfByte | src/context/ThemeContext.tsx:100 | a value from 0 to 255 is written as its high and low hexadecimal digits, zero-padded |
| ThemeColor.ToHexRoundTrip | src/context/ThemeContext.tsx:100 | a written value from 0 to 255 reads back as itself |
| ThemeColor.PairRoundTrip | src/context/ThemeContext.tsx:92-100 | a pair read as a channel and written again comes back lower-cased |
| ThemeColor.ChannelOfHexColor | src/context/ThemeContext.tsx:92-94 | each channel of a six-digit colour is the value of its pair, below 256 |
| ThemeColor.DarkenedChannel | src/context/ThemeContext.tsx:96-100 | a darkened channel is between 0 and the old value, written as two lower-case digits that read back as it |
| ThemeColor.DarkenWellFormed | src/context/ThemeContext.tsx:91-103 | for a six-digit colour and a percentage from 0 to 100 the result is "#" and six lower-case digits whose channels are the input channels scaled down |
| ThemeColor.DarkenByZero | src/context/ThemeContext.tsx:91-103 | darkening by 0 lower-cases the first seven characters |
| ThemeColor.DarkenByHundred | src/context/ThemeContext.tsx:91-103 | darkening by 100 gives "#000000" whenever all three channels parse |
| ThemeColor.UnparsableChannel | src/context/ThemeContext.tsx:92-102 | a red channel that does not parse is written as "aN" |
| ThemeColor.NaNHex | src/context/ThemeContext.tsx:100 | NaN is written as the last two characters of "0NaN" |
| ThemeColor.DefaultHoverColor | src/context/ThemeContext.tsx:70-73 | the provider's hover shade of the default "#4ade80" is "#3bb166" |
| RecentTransactionsList.LastWithId | src/components/dashboard/RecentTransactionsList.tsx:30 | finds the last account with an id, and nothing exactly when none has it |
| RecentTransactionsList.AccountsMap | src/components/dashboard/RecentTransactionsList.tsx:30 | the map has exactly the accounts' ids as keys, each mapped to the name of the last account with that id |
| RecentTransactionsList.AccountName | src/components/dashboard/RecentTransactionsList.tsx:44 | never empty; "N/A" exactly for a missing id, an empty name or a name that is itself "N/A"; otherwise the stored name |
| RecentTransactionsList.NameOfLastAccount | src/components/dashboard/RecentTransactionsList.tsx:30-44 | the name shown is the last matching account's name, or "N/A" when there is none or it is empty |
| RecentTransactionsList.LaterAccountWins | src/components/dashboard/RecentTransactionsList.tsx:30 | a later account with the same id replaces the earlier one's name and changes no other id's name |
| RecentTransactionsList.RelativeDate | src/components/dashboard/RecentTransactionsList.tsx:10-19 | "Hoje" exactly for today's calendar day, "Ontem" exactly for the day before, otherwise the date's own day and month |
| RecentTransactionsList.YesterdayIsDayBefore | src/components/dashboard/RecentTransactionsList.tsx:12-16 | for valid days, "Ontem" is shown exactly when the next day is today |
| RecentTransactionsList.SignOf | src/components/dashboard/RecentTransactionsList.tsx:65 | the prefix is two characters ending in a space, "+" exactly for income and "-" exactly otherwise |
| RecentTransactionsList.RowOf | src/components/dashboard/RecentTransactionsList.tsx:43-70 | the icon follows the category, or the title when there is none, and is the default when both are empty; the category text and account name are never empty, falling back to "Sem categoria" and "N/A" exactly when the value is missing or empty; the day reads "Hoje" exactly for today; the sign is "+" exactly for income; title and amount pass through |
| RecentTransactionsList.RecentList | src/components/dashboard/RecentTransactionsList.tsx:41-79 | the empty-state text appears exactly for no transactions; otherwise one row per transaction, in input order |
| RecentTransactionsList.RowsFollowInput | src/components/dashboard/RecentTransactionsList.tsx:43-65 | the i-th row shows the i-th transaction's title, amount and sign, and "N/A" when its account is unknown |
| PaginationControls.StartItem | src/components/ui/PaginationControls.tsx:29 | the first position shown is at least 1, and is the first position on page `currentPage`: it falls on that page, at offset 0 |
| PaginationControls.TotalPages | src/components/ui/PaginationControls.tsx:10 | the `totalPages` prop, `Math.ceil(total / perPage)` in the transactions page, is the fewest pages that hold every item |
| PaginationControls.ItemsOnPage | src/components/ui/PaginationControls.tsx:15 | the `itemsOnCurrentPage` prop, the length of the transactions page's slice, is the number of item indices that fall on the page: at most a page's worth, and 0 on a page past the last |
| PaginationControls.RangeNamesPage | src/components/ui/PaginationControls.tsx:29-35 | on an existing page the bar names positions 1 ≤ start ≤ end ≤ total, ending at the page's last item or the last item overall |
| PaginationControls.LastPageEndsAtTotal | src/components/ui/PaginationControls.tsx:29-30 | on the last page the range ends at the total |
| PaginationControls.Navigation | src/components/ui/PaginationControls.tsx:53-66 | First and Previous are disabled exactly on page 1, Next and Last exactly on the last page, and they ask for pages 1, current − 1, current + 1 and the last page; on an existing page every enabled button asks for an existing page |
| PaginationControls.SinglePageDisablesAll | src/components/ui/PaginationControls.tsx:54-63 | with one page every button is disabled |
| PaginationControls.NoClamping | src/components/ui/PaginationControls.tsx:57-60 | outside the page range an enabled button can ask for a page that does not exist |
| PaginationControls.OptionText | src/components/ui/PaginationControls.tsx:45-47 | an option's value attribute is a non-empty string of digits |
| PaginationControls.SelectionRoundTrip | src/components/ui/PaginationControls.tsx:43-46 | choosing an option passes on exactly that option's number |
| PaginationControls.OptionsIncreasing | src/components/ui/PaginationControls.tsx:18 | the choices 10, 20, 30 and 50 are positive and strictly increasing |
| Header.Initials | src/components/layout/Header.tsx:26-30 | one or two characters that never start with a small letter: the upper-cased first character of a non-empty display name, else of a non-empty e-mail, else "U" |
| Header.DisplayNameFirst | src/components/layout/Header.tsx:27-28 | a non-empty display name decides alone, whatever the e-mail |
| Header.EmptyNameIsAbsent | src/components/layout/Header.tsx:27 | an empty display name counts as none |

## Left out

- Storage: the Firestore reads and writes, authentication and routing are not modelled. The form's store call is the `storeSucceeds` parameter of `AddTransactionForm.TransactionForm.Submit`. The theme provider's colour state and its persistence are not part of this model.
- AddTransactionForm.TransactionForm.Submit: the `await` is not modelled. The model has no interleaving while `isSubmitting` is true, and no re-render between the setters.
- Clock and time zones: the current day is a parameter, and a `Date` is reduced to the local calendar day it denotes. The chart's `current <= end` test compares month indices. That is equivalent, because `current` is always the first instant of a month.
- MonthlyExpensesChart.StartMonth, MonthlyExpensesChart.FillMonths and MonthlyExpensesChart.LastFiveMonths: `new Date(year, month, 1)` reads a year from 0 to 99 as 1900 plus that year. The model takes the year as given. A window starting in such a year (a start date or an earliest transaction in years 0 to 99, or a current year in that range) therefore begins in the source 1900 years later than in the model, with far fewer buckets.
- MonthlySummaryCard.GroupByMonth: months are keyed by their year-month index, not by the "yyyy-MM" text. The two agree for the years 1 to 9999 that stored timestamps can hold. For years up to 0 the era-year text would merge year `1 - y` with year `y`. Parsing the key back with the day "-02" is taken to land in the same month, which holds for time-zone offsets under a day.
- MonthlySummaryCard.SortByRank: the comparator parses the localised label with `new Date(label)`. That parse depends on the JavaScript engine, so the time it yields is the `rank` parameter. MostRecentFirst assumes only that `rank` reads a label back as its month. Which sort algorithm the engine uses is not modelled; the model uses an insertion sort, whose output has the same order and contents for a consistent comparator. A label the engine cannot parse makes the comparator return NaN, which counts as a tie with every entry. An integer `rank` cannot express that, so the order around such labels is not modelled.
- MonthlySummaryCard.ShowsOnlyCurrentMonth: stated for current years from 1000 on, where `getFullYear()` and "yyyy" write the same digits. DisplaysAtMostOne covers earlier years, where nothing is shown.
- Floating point: amounts, totals and `calculatePercentageChange` are exact reals. IEEE-754 rounding, NaN and infinite amounts are not modelled. Calculations.PercentageChange rounds the exact quotient, so results at a float rounding boundary may differ from the browser's.
- Locale formatting: currency text (`toLocaleString`) is not modelled. RecentTransactionsList.RelativeDate returns the day and month rather than the pt-BR short text `toLocaleDateString` writes.
- Text.ToLower and Text.UpperOf: case mapping covers Basic Latin and Latin-1 only, plus the three Latin-1 letters whose capitals lie outside it. Other scripts pass through unchanged. Strings are sequences of code points, not UTF-16 units.
- ThemeColor.ParseInt16: the white space `parseInt` skips is the fixed list of JavaScript white-space and line-terminator characters. The numeric value of very long digit runs is exact rather than a double.
- ThemeColor.DarkenColor: the percentage is an integer. The provider only ever passes 20.
- CategoryIcons.GetCategoryIcon: the table is an ordered list of keys. JavaScript object-prototype names such as "constructor" are not looked up.
- PaginationControls: the component receives the current page and the page count as props. The clamping effect in the transactions page is not modelled.
- Header: only `getInitials` is modelled, not the dropdown.

## Findings

None.
