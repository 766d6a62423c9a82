/**
 * The recent-transactions list (src/components/dashboard/recent-transactions.tsx): the badge
 * colour and label of each transaction type, and the notes fallback text.
 */
module RecentTransactions {
  import opened Wrappers
  import opened Database
  import opened Display
  import Api

  const GrayBadge: string := "bg-gray-100 text-gray-800"
  const NoNotesText: string := "Sem observações"

  /** The badge colour of each kind. */
  function KindColor(k: TransactionKind): string {
    match k
    case StockIn => "bg-green-100 text-green-800"
    case StockOut => "bg-red-100 text-red-800"
    case Adjust => "bg-blue-100 text-blue-800"
    case Move => "bg-yellow-100 text-yellow-800"
    case Count => "bg-purple-100 text-purple-800"
  }

  /** The Portuguese label of each kind. */
  function KindLabel(k: TransactionKind): string {
    match k
    case StockIn => "Entrada"
    case StockOut => "Saída"
    case Adjust => "Ajuste"
    case Move => "Movimentação"
    case Count => "Contagem"
  }

  /** The badge colour of a `transaction_type` value; any unknown value gets gray. */
  function TransactionTypeColor(t: string): (c: string)
    ensures c == GrayBadge <==> ParseKind(t).None?
    ensures ParseKind(t).Some? ==> c == KindColor(ParseKind(t).value)
  {
    if t == "stock_in" then "bg-green-100 text-green-800"
    else if t == "stock_out" then "bg-red-100 text-red-800"
    else if t == "adjust" then "bg-blue-100 text-blue-800"
    else if t == "move" then "bg-yellow-100 text-yellow-800"
    else if t == "count" then "bg-purple-100 text-purple-800"
    else GrayBadge
  }

  /** The badge label of a `transaction_type` value; an unknown value is shown as it is. */
  function TransactionTypeLabel(t: string): (l: string)
    ensures ParseKind(t).None? <==> l == t
    ensures ParseKind(t).Some? ==> l == KindLabel(ParseKind(t).value)
  {
    if t == "stock_in" then "Entrada"
    else if t == "stock_out" then "Saída"
    else if t == "adjust" then "Ajuste"
    else if t == "move" then "Movimentação"
    else if t == "count" then "Contagem"
    else t
  }

  /** The five kinds get five different labels, and an unknown value is its own label. */
  lemma LabelsIdentifyKinds(k: TransactionKind, k': TransactionKind, t: string)
    ensures TransactionTypeLabel(KindName(k)) == KindLabel(k)
    ensures TransactionTypeLabel(KindName(k)) == TransactionTypeLabel(KindName(k')) ==> k == k'
    ensures ParseKind(t).None? ==> TransactionTypeLabel(t) == t
  {
  }

  /** The five kinds get five different colours, and gray is the colour of unknown values only. */
  lemma ColorsIdentifyKinds(k: TransactionKind, k': TransactionKind, t: string)
    ensures TransactionTypeColor(KindName(k)) == KindColor(k)
    ensures TransactionTypeColor(KindName(k)) == TransactionTypeColor(KindName(k')) ==> k == k'
    ensures TransactionTypeColor(t) == GrayBadge <==> ParseKind(t).None?
  {
  }

  /** `transaction.notes || 'Sem observações'`. */
  function NotesText(notes: Option<string>): (r: string)
    ensures (notes.None? || notes == Some("")) ==> r == NoNotesText
    ensures (notes.Some? && notes.value != "") ==> r == notes.value
  {
    OrText(notes, NoNotesText)
  }

  /** What one entry of the list shows besides the joined item's name and SKU. */
  datatype TransactionView = TransactionView(color: string, caption: string, notes: string, quantity: int)

  /** One entry: the badge of the transaction's own kind, its notes or the fallback, its quantity. */
  function RenderTransaction(row: Api.TransactionRow): (v: TransactionView)
    ensures v.color == KindColor(row.tx.transactionType) && v.color != GrayBadge
    ensures v.caption == KindLabel(row.tx.transactionType) && v.caption != KindName(row.tx.transactionType)
    ensures v.notes == (if row.tx.notes.Some? && row.tx.notes.value != "" then row.tx.notes.value else NoNotesText)
    ensures v.quantity == row.tx.quantity
  {
    KindNameRoundTrip(row.tx.transactionType, row.tx.transactionType);
    var t := KindName(row.tx.transactionType);
    TransactionView(TransactionTypeColor(t), TransactionTypeLabel(t), NotesText(row.tx.notes), row.tx.quantity)
  }
}
