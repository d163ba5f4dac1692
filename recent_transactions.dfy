/** The dashboard's list of recent transactions: one row per transaction, in
    the order given, each showing its icon, title, category, account name,
    a relative day and a signed amount. */
module RecentTransactionsList {
  import opened Records
  import CategoryIcons

  // ---------------------------------------------------------------------------
  // Account names

  /** The index of the last account whose id is `id`, if any. */
  function LastWithId(accounts: seq<Account>, id: string): (r: Option<nat>)
    ensures r.None? <==> forall i :: 0 <= i < |accounts| ==> accounts[i].id != id
    ensures r.Some? ==> r.value < |accounts| && accounts[r.value].id == id
    ensures r.Some? ==> forall j :: r.value < j < |accounts| ==> accounts[j].id != id
  {
    if accounts == [] then None
    else if Last(accounts).id == id then Some(|accounts| - 1)
    else LastWithId(DropLast(accounts), id)
  }

  /** `new Map(accounts.map(acc => [acc.id, acc.name]))`: the entries are set
      in order, so a later account replaces an earlier one with the same id. */
  function AccountsMap(accounts: seq<Account>): (m: map<string, string>)
    ensures forall id :: id in m <==> LastWithId(accounts, id).Some?
    ensures forall id :: id in m ==> m[id] == accounts[LastWithId(accounts, id).value].name
  {
    if accounts == [] then map[]
    else AccountsMap(DropLast(accounts))[Last(accounts).id := Last(accounts).name]
  }

  const NoAccountName: string := "N/A"

  /** `accountsMap.get(id) || "N/A"`: a missing entry and an empty name both fall back. */
  function AccountName(m: map<string, string>, id: string): (r: string)
    ensures r != ""
    ensures r == NoAccountName <==> id !in m || m[id] == "" || m[id] == NoAccountName
    ensures id in m && m[id] != "" ==> r == m[id]
  {
    if id in m && m[id] != "" then m[id] else NoAccountName
  }

  /** The name shown for an account id is that of the last account with the
      id, or "N/A" when there is none or its name is empty. */
  lemma NameOfLastAccount(accounts: seq<Account>, id: string)
    ensures LastWithId(accounts, id).None? ==> AccountName(AccountsMap(accounts), id) == NoAccountName
    ensures LastWithId(accounts, id).Some? ==>
              var name := accounts[LastWithId(accounts, id).value].name;
              AccountName(AccountsMap(accounts), id) == if name == "" then NoAccountName else name
  {
  }

  /** Only accounts after the last one with a given id can be appended
      without changing the name shown for it. */
  lemma {:induction false} LaterAccountWins(accounts: seq<Account>, a: Account)
    ensures AccountName(AccountsMap(accounts + [a]), a.id) == AccountName(map[a.id := a.name], a.id)
    ensures forall id :: id != a.id ==>
              AccountName(AccountsMap(accounts + [a]), id) == AccountName(AccountsMap(accounts), id)
  {
    assert DropLast(accounts + [a]) == accounts;
  }

  // ---------------------------------------------------------------------------
  // Relative day

  /** What `formatRelativeDate` shows: "Hoje", "Ontem", or the day and month
      in the pt-BR short form (the text of the last is not modelled). */
  datatype RelativeDay = Hoje | Ontem | DayAndMonth(day: DayOfMonth, month: Month)

  /** `toDateString` compares the calendar day, so two dates match exactly when
      their year, month and day agree; `today` is the clock reading. */
  function RelativeDate(date: Date, today: Date): (r: RelativeDay)
    ensures r == Hoje <==> date == today
    ensures r == Ontem <==> date != today && date == PreviousDay(today)
    ensures r.DayAndMonth? ==> r.day == date.day && r.month == date.month
  {
    if date == today then Hoje
    else if date == PreviousDay(today) then Ontem
    else DayAndMonth(date.day, date.month)
  }

  lemma NextDayDiffers(d: Date)
    ensures NextDay(d) != d
  {
  }

  /** "Ontem" is shown exactly for the day whose next day is today. */
  lemma YesterdayIsDayBefore(date: Date, today: Date)
    requires ValidDate(date) && ValidDate(today)
    ensures RelativeDate(date, today) == Ontem <==> NextDay(date) == today
  {
    if NextDay(date) == today {
      PreviousOfNext(date);
      NextDayDiffers(date);
    }
    if date == PreviousDay(today) {
      NextOfPrevious(today);
    }
  }

  // ---------------------------------------------------------------------------
  // Rows

  const NoCategoryText: string := "Sem categoria"
  const EmptyStateText: string := "Nenhuma transação recente para exibir."

  /** One list row: the icon, the title, the category text, the account
      name, the relative day, the sign and the amount. */
  datatype Row = Row(
    icon: CategoryIcons.Icon,
    title: string,
    categoryText: string,
    accountName: string,
    when: RelativeDay,
    sign: string,
    amount: real)

  /** `t.category || t.title`: the text the icon is chosen from. */
  function IconKey(t: Transaction): (k: string)
    ensures t.category != "" ==> k == t.category
    ensures t.category == "" ==> k == t.title
  {
    if t.category != "" then t.category else t.title
  }

  /** `t.type === "income" ? "+ " : "- "`. */
  function SignOf(kind: TxType): (s: string)
    ensures |s| == 2 && s[1] == ' '
    ensures s[0] == '+' <==> kind == Income
    ensures s[0] == '-' <==> kind.Expense?
  {
    if kind == Income then ['+', ' '] else ['-', ' ']
  }

  /** A row: the icon follows the category, or the title without one; the
      texts shown are never empty; the day reads "Hoje" exactly for today; the
      sign is "+" exactly for income. */
  function RowOf(t: Transaction, names: map<string, string>, today: Date): (r: Row)
    ensures t.category != "" ==> r.icon == CategoryIcons.GetCategoryIcon(t.category)
    ensures t.category == "" ==> r.icon == CategoryIcons.GetCategoryIcon(t.title)
    ensures t.category == "" && t.title == "" ==> r.icon == CategoryIcons.DefaultIcon
    ensures r.title == t.title && r.amount == t.amount
    ensures r.categoryText != ""
    ensures r.categoryText == NoCategoryText <==> t.category == "" || t.category == NoCategoryText
    ensures t.category != "" ==> r.categoryText == t.category
    ensures r.accountName != ""
    ensures r.accountName == NoAccountName <==>
              t.accountId !in names || names[t.accountId] == "" || names[t.accountId] == NoAccountName
    ensures r.accountName == AccountName(names, t.accountId)
    ensures r.when == Hoje <==> t.date == today
    ensures r.when == RelativeDate(t.date, today)
    ensures r.sign == SignOf(t.kind)
    ensures r.sign[0] == '+' <==> t.kind == Income
  {
    Row(CategoryIcons.GetCategoryIcon(IconKey(t)),
        t.title,
        if t.category != "" then t.category else NoCategoryText,
        AccountName(names, t.accountId),
        RelativeDate(t.date, today),
        SignOf(t.kind),
        t.amount)
  }

  /** The card's body: the empty-state text, or the rows. */
  datatype ListView = EmptyState(text: string) | Rows(rows: seq<Row>)

  function RecentList(txs: seq<Transaction>, accounts: seq<Account>, today: Date): (v: ListView)
    ensures v.EmptyState? <==> txs == []
    ensures v.EmptyState? ==> v.text == EmptyStateText
    ensures v.Rows? ==> |v.rows| == |txs|
    ensures v.Rows? ==> forall i :: 0 <= i < |txs| ==> v.rows[i] == RowOf(txs[i], AccountsMap(accounts), today)
  {
    if txs == [] then EmptyState(EmptyStateText)
    else
      var names := AccountsMap(accounts);
      Rows(seq(|txs|, i requires 0 <= i < |txs| => RowOf(txs[i], names, today)))
  }

  /** Rows follow the input: the i-th row shows the i-th transaction's title,
      amount and sign, and its account's name or "N/A". */
  lemma RowsFollowInput(txs: seq<Transaction>, accounts: seq<Account>, today: Date, i: int)
    requires 0 <= i < |txs|
    ensures RecentList(txs, accounts, today).Rows?
    ensures var row := RecentList(txs, accounts, today).rows[i];
            row.title == txs[i].title && row.amount == txs[i].amount
            && (row.sign[0] == '+' <==> txs[i].kind == Income)
            && (LastWithId(accounts, txs[i].accountId).None? ==> row.accountName == NoAccountName)
  {
    NameOfLastAccount(accounts, txs[i].accountId);
  }
}
