/** The form that adds a transaction or edits one: the "initial balance"
    option and when it is offered, the preload from the record being edited,
    the ordered validation checks, and the record handed to the store. */
module AddTransactionForm {
  import opened Records

  const AmountMessage: string := "O valor da transação deve ser maior que zero."
  const AccountMessage: string := "Por favor, selecione uma conta."
  const DateMessage: string := "Por favor, selecione uma data."
  const TitleMessage: string := "O título da transação é obrigatório."
  const SaveFailedMessage: string := "Ocorreu um erro ao salvar. Tente novamente."
  const InitialBalanceTitle: string := "Saldo Inicial"

  // ---------------------------------------------------------------------------
  // The initial-balance option

  /** `transactions.some(t => t.category === "initial_balance")`. */
  function HasInitialBalance(txs: seq<Transaction>): (r: bool)
    ensures r <==> exists t :: t in txs && t.category == InitialBalanceCategory
  {
    if txs == [] then false
    else
      assert forall t :: t in txs <==> t == txs[0] || t in txs[1..];
      txs[0].category == InitialBalanceCategory || HasInitialBalance(txs[1..])
  }

  /** The checkbox is shown only on a new transaction, and only while no
      initial-balance transaction exists. */
  function OffersInitialBalance(editing: bool, txs: seq<Transaction>): (r: bool)
    ensures r <==> !editing && forall t :: t in txs ==> t.category != InitialBalanceCategory
  {
    !editing && !HasInitialBalance(txs)
  }

  /** The number of initial-balance transactions. */
  function SentinelCount(txs: seq<Transaction>): (n: nat)
    ensures n == 0 <==> !HasInitialBalance(txs)
    ensures n <= |txs|
  {
    if txs == [] then 0
    else (if txs[0].category == InitialBalanceCategory then 1 else 0) + SentinelCount(txs[1..])
  }

  // ---------------------------------------------------------------------------
  // Form state, validation and the record built from it

  /** The editable state. `amount` is `None` while the field is empty; `date`
      is `None` when the date picker has been cleared. */
  datatype FormState = FormState(
    title: string,
    amount: Option<real>,
    date: Option<Date>,
    kind: TxType,
    category: string,
    accountId: string,
    isInitialBalance: bool)

  /** The record handed to the store: a transaction without its id and owner. */
  datatype TransactionData = TransactionData(
    title: string,
    amount: real,
    date: Date,
    kind: TxType,
    category: string,
    accountId: string)

  predicate AmountOk(s: FormState) {
    s.amount.Some? && s.amount.value > 0.0
  }

  /** Every check passes: a positive amount, an account, a date, and a title
      unless the record is an initial balance. */
  predicate Submittable(s: FormState) {
    AmountOk(s) && s.accountId != "" && s.date.Some? && (s.isInitialBalance || s.title != "")
  }

  /** The message of the first failing check, in the order amount, account,
      date, title; `None` when all pass. */
  function Validate(s: FormState): (r: Option<string>)
    ensures r == None <==> Submittable(s)
    ensures r == Some(AmountMessage) <==> !AmountOk(s)
    ensures r == Some(AccountMessage) <==> AmountOk(s) && s.accountId == ""
    ensures r == Some(DateMessage) <==> AmountOk(s) && s.accountId != "" && s.date.None?
    ensures r == Some(TitleMessage) <==>
              AmountOk(s) && s.accountId != "" && s.date.Some? && !s.isInitialBalance && s.title == ""
  {
    if s.amount.None? || s.amount.value <= 0.0 then Some(AmountMessage)
    else if s.accountId == "" then Some(AccountMessage)
    else if s.date.None? then Some(DateMessage)
    else if !s.isInitialBalance && s.title == "" then Some(TitleMessage)
    else None
  }

  /** `transactionData`: an initial balance is always titled "Saldo Inicial",
      is income and carries the sentinel category, whatever was entered; any
      other record takes the entered title, type and category. Amount, date
      and account pass through in both cases. */
  function BuildRecord(s: FormState): (d: TransactionData)
    requires Submittable(s)
    ensures d.amount == s.amount.value && d.date == s.date.value && d.accountId == s.accountId
    ensures d.amount > 0.0 && d.accountId != "" && d.title != ""
    ensures d.category == InitialBalanceCategory <==> s.isInitialBalance || s.category == InitialBalanceCategory
    ensures s.isInitialBalance ==>
              d.title == InitialBalanceTitle && d.kind == Income && d.category == InitialBalanceCategory
    ensures !s.isInitialBalance ==>
              d.title == s.title && d.kind == s.kind && d.category == s.category
  {
    TransactionData(
      if s.isInitialBalance then InitialBalanceTitle else s.title,
      s.amount.value,
      s.date.value,
      if s.isInitialBalance then Income else s.kind,
      if s.isInitialBalance then InitialBalanceCategory else s.category,
      s.accountId)
  }

  /** The state the effect sets up: every field of the record being edited,
      with the option ticked exactly when its category is the sentinel; for a
      new transaction, empty fields, today, an expense and the first account. */
  function PreloadState(toEdit: Option<Transaction>, accounts: seq<Account>, today: Date): (s: FormState)
    ensures toEdit.Some? ==>
              s.title == toEdit.value.title && s.amount == Some(toEdit.value.amount)
              && s.date == Some(toEdit.value.date) && s.kind == toEdit.value.kind
              && s.category == toEdit.value.category && s.accountId == toEdit.value.accountId
              && (s.isInitialBalance <==> toEdit.value.category == InitialBalanceCategory)
    ensures toEdit.None? ==>
              s.title == "" && s.amount == None && s.date == Some(today) && s.kind == Expense
              && s.category == "" && !s.isInitialBalance
              && s.accountId == (if |accounts| > 0 then accounts[0].id else "")
  {
    match toEdit
    case Some(t) =>
      FormState(t.title, Some(t.amount), Some(t.date), t.kind, t.category, t.accountId,
                t.category == InitialBalanceCategory)
    case None =>
      FormState("", None, Some(today), Expense, "", if |accounts| > 0 then accounts[0].id else "", false)
  }

  /** The record of a transaction as the store keeps it, without id and owner. */
  function DataOf(t: Transaction): TransactionData {
    TransactionData(t.title, t.amount, t.date, t.kind, t.category, t.accountId)
  }

  /** Opening a stored transaction for editing and saving it unchanged passes
      validation exactly when it has a positive amount, an account, and a title
      or the sentinel category; and then it writes back the same record exactly
      when it is not an initial balance, or is one already titled "Saldo
      Inicial" and typed income. */
  lemma EditRoundTrip(t: Transaction, accounts: seq<Account>, today: Date)
    ensures Submittable(PreloadState(Some(t), accounts, today)) <==>
              t.amount > 0.0 && t.accountId != "" && (t.category == InitialBalanceCategory || t.title != "")
    ensures Submittable(PreloadState(Some(t), accounts, today)) ==>
              (BuildRecord(PreloadState(Some(t), accounts, today)) == DataOf(t) <==>
                 t.category != InitialBalanceCategory || (t.title == InitialBalanceTitle && t.kind == Income))
  {
    var s := PreloadState(Some(t), accounts, today);
    if Submittable(s) && t.category == InitialBalanceCategory && BuildRecord(s) == DataOf(t) {
      assert BuildRecord(s).title == t.title;
    }
  }

  /** A new form is not submittable as it stands: its amount is empty. */
  lemma NewFormNeedsAmount(accounts: seq<Account>, today: Date)
    ensures Validate(PreloadState(None, accounts, today)) == Some(AmountMessage)
  {
  }

  /** Adding a record built while the option was only offered when allowed
      keeps at most one initial-balance transaction, provided the category was
      not typed in as the sentinel by hand. */
  lemma AtMostOneInitialBalance(txs: seq<Transaction>, s: FormState, t: Transaction)
    requires SentinelCount(txs) <= 1
    requires Submittable(s)
    requires s.isInitialBalance ==> OffersInitialBalance(false, txs)
    requires s.category != InitialBalanceCategory
    requires t.category == BuildRecord(s).category
    ensures SentinelCount(txs + [t]) <= 1
  {
    SentinelCountSnoc(txs, t);
  }

  /** Without the last premise the rule does not hold: a category typed in as
      "initial_balance" adds a second initial-balance transaction. */
  lemma HandTypedSentinelSlipsThrough()
    ensures exists txs: seq<Transaction>, s: FormState, t: Transaction ::
              SentinelCount(txs) == 1 && Submittable(s) && !s.isInitialBalance
              && t.category == BuildRecord(s).category && SentinelCount(txs + [t]) == 2
  {
    var d := Date(2024, 0, 1);
    var old1 := Transaction("a", "u", "Saldo Inicial", 10.0, d, Income, InitialBalanceCategory, "c");
    var s := FormState("x", Some(1.0), Some(d), Expense, InitialBalanceCategory, "c", false);
    var t := Transaction("b", "u", "x", 1.0, d, Expense, InitialBalanceCategory, "c");
    SentinelCountSnoc([old1], t);
    assert SentinelCount([old1]) == 1;
    assert SentinelCount([old1] + [t]) == 2;
  }

  /** The transactions page renders the form without a `transactions` list,
      so the form sees none: the option is offered on every new transaction,
      and ticking it adds one more initial balance to whatever the store
      already holds, a second one when it holds one. */
  lemma CallSiteAddsInitialBalance(store: seq<Transaction>, s: FormState, t: Transaction)
    requires Submittable(s) && s.isInitialBalance
    requires t.category == BuildRecord(s).category
    ensures OffersInitialBalance(false, [])
    ensures SentinelCount(store + [t]) == SentinelCount(store) + 1
  {
    SentinelCountSnoc(store, t);
  }

  /** A store holding one initial balance gets a second through the form as
      the transactions page renders it. */
  lemma CallSiteSecondInitialBalance()
    ensures exists store: seq<Transaction>, s: FormState, t: Transaction ::
              SentinelCount(store) == 1 && OffersInitialBalance(false, []) && Submittable(s)
              && s.isInitialBalance && t.category == BuildRecord(s).category
              && SentinelCount(store + [t]) == 2
  {
    var d := Date(2024, 0, 1);
    var old1 := Transaction("a", "u", "Saldo Inicial", 10.0, d, Income, InitialBalanceCategory, "c");
    var s := FormState("", Some(1.0), Some(d), Expense, "", "c", true);
    var t := Transaction("b", "u", InitialBalanceTitle, 1.0, d, Income, InitialBalanceCategory, "c");
    assert SentinelCount([old1]) == 1;
    CallSiteAddsInitialBalance([old1], s, t);
  }

  lemma {:induction false} SentinelCountSnoc(txs: seq<Transaction>, t: Transaction)
    ensures SentinelCount(txs + [t]) == SentinelCount(txs) + (if t.category == InitialBalanceCategory then 1 else 0)
  {
    if txs != [] {
      assert (txs + [t])[1..] == txs[1..] + [t];
      SentinelCountSnoc(txs[1..], t);
    }
  }

  // ---------------------------------------------------------------------------
  // The form as a stateful object

  /** What a submission led to. */
  datatype SubmitOutcome =
    | Rejected(message: string)
    | Added(data: TransactionData)
    | Updated(id: string, data: TransactionData)
    | SaveFailed(data: TransactionData)

  class TransactionForm {
    var title: string
    var amount: Option<real>
    var date: Option<Date>
    var kind: TxType
    var category: string
    var accountId: string
    var isInitialBalance: bool
    var isSubmitting: bool
    var error: Option<string>
    /** The transaction being edited, `None` for a new one. */
    var toEdit: Option<Transaction>

    function State(): FormState
      reads this
    {
      FormState(title, amount, date, kind, category, accountId, isInitialBalance)
    }

    /** The option can be ticked only where it is offered, or when the record
        being edited already is the initial balance. */
    predicate OptionAllowed(txs: seq<Transaction>)
      reads this
    {
      isInitialBalance ==>
        OffersInitialBalance(toEdit.Some?, txs)
        || (toEdit.Some? && toEdit.value.category == InitialBalanceCategory)
    }

    /** The initial state of the hooks: empty fields, today, an expense, no account. */
    constructor (today: Date)
      ensures State() == FormState("", None, Some(today), Expense, "", "", false)
      ensures !isSubmitting && error == None && toEdit == None
    {
      title, amount, date, kind, category, accountId := "", None, Some(today), Expense, "", "";
      isInitialBalance, isSubmitting, error, toEdit := false, false, None, None;
    }

    /** The effect that runs when the edited transaction or the account list changes. */
    method Preload(edit: Option<Transaction>, accounts: seq<Account>, today: Date)
      modifies this
      ensures State() == PreloadState(edit, accounts, today) && toEdit == edit
      ensures isSubmitting == old(isSubmitting) && error == old(error)
      ensures forall txs :: OptionAllowed(txs)
    {
      toEdit := edit;
      match edit {
        case Some(t) =>
          title, amount, date, kind := t.title, Some(t.amount), Some(t.date), t.kind;
          category, accountId := t.category, t.accountId;
          isInitialBalance := t.category == InitialBalanceCategory;
        case None =>
          title, amount, date, kind, category := "", None, Some(today), Expense, "";
          accountId := if |accounts| > 0 then accounts[0].id else "";
          isInitialBalance := false;
      }
    }

    /** The checkbox's change handler; the checkbox exists only where the option is offered. */
    method SetInitialBalance(checked: bool, txs: seq<Transaction>)
      requires OffersInitialBalance(toEdit.Some?, txs)
      modifies this
      ensures State() == old(State()).(isInitialBalance := checked)
      ensures isSubmitting == old(isSubmitting) && error == old(error) && toEdit == old(toEdit)
      ensures OptionAllowed(txs)
    {
      isInitialBalance := checked;
    }

    /** The change handlers of the title, type, amount, account, category and date inputs. */
    method Enter(newTitle: string, newKind: TxType, newAmount: Option<real>, newAccount: string,
                 newCategory: string, newDate: Option<Date>)
      modifies this
      ensures State() == FormState(newTitle, newAmount, newDate, newKind, newCategory, newAccount,
                                   old(isInitialBalance))
      ensures isSubmitting == old(isSubmitting) && error == old(error) && toEdit == old(toEdit)
      ensures forall txs :: old(OptionAllowed(txs)) ==> OptionAllowed(txs)
    {
      title, kind, amount, accountId, category, date := newTitle, newKind, newAmount, newAccount, newCategory, newDate;
    }

    /** `handleSubmit`. The store's answer is the parameter `storeSucceeds`. A
        failed check sets its message and submits nothing; otherwise the record
        is added, or updated under the edited transaction's id, and the form
        is no longer submitting afterwards, with the save error set if the
        store failed. The entered fields never change. */
    method Submit(storeSucceeds: bool) returns (outcome: SubmitOutcome)
      modifies this
      ensures State() == old(State()) && toEdit == old(toEdit)
      ensures !Submittable(State()) ==>
                outcome == Rejected(Validate(State()).value) && error == Validate(State())
                && isSubmitting == old(isSubmitting)
      ensures Submittable(State()) ==>
                !isSubmitting
                && (storeSucceeds ==>
                      error == None
                      && outcome == (if toEdit.Some? then Updated(toEdit.value.id, BuildRecord(State()))
                                     else Added(BuildRecord(State()))))
                && (!storeSucceeds ==>
                      error == Some(SaveFailedMessage) && outcome == SaveFailed(BuildRecord(State())))
    {
      error := None;
      var problem := Validate(State());
      if problem.Some? {
        error := problem;
        outcome := Rejected(problem.value);
        return;
      }
      isSubmitting := true;
      var data := BuildRecord(State());
      if storeSucceeds {
        if toEdit.Some? {
          outcome := Updated(toEdit.value.id, data);
        } else {
          outcome := Added(data);
        }
      } else {
        error := Some(SaveFailedMessage);
        outcome := SaveFailed(data);
      }
      isSubmitting := false;
    }
  }
}
