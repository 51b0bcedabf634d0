/** NodeType: the three kinds of node (bank account, revenue source, expense destination). */
module NodeTypes {
  datatype NodeType = Account | Revenue | Expense
}
