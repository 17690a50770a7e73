/** The receipt records exchanged between the receipt screens and the back end. */
module Receipts {

  /** `ReceiptItem`: a product line; the back end declares the price an integer (yen,
      tax included). */
  datatype Item = Item(itemName: string, price: int)

  /** `Receipt` as the editor builds it and `/save` receives it. */
  datatype Receipt = Receipt(purchaseDate: string, storeName: string, items: seq<Item>)

  /** `ReceiptData` as `/analyze` returns it: a receipt plus the printed total and the
      payment method. */
  datatype AnalyzedReceipt = AnalyzedReceipt(purchaseDate: string, storeName: string, items: seq<Item>,
                                             totalAmount: int, paymentMethod: string)
}
