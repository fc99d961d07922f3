/** The message shapes shared by the chat widget's components (types.ts). */
module Types {

  datatype Option<+T> = None | Some(value: T)

  /** The kind of a transcript entry. */
  datatype MessageType = Text | ProductList | Loading

  /** Who wrote a transcript entry. */
  datatype SenderType = User | Ai

  /** A catalogue entry shown in a message's product carousel. */
  datatype Product = Product(
    id: string,
    name: string,
    image: string,
    price: string,
    oldPrice: Option<string>,
    discount: Option<string>,
    description: string)

  /** Message ids. The widget builds the strings `welcome`, `user-<clock>` and
      `ai-<clock>`; only equality of ids is ever used, and the three prefixes
      keep the three families apart, which this datatype states by construction. */
  datatype MessageId = Welcome | UserId(stamp: nat) | AiId(stamp: nat)

  /** One transcript entry; `products` is the optional carousel payload. The
      creation timestamp is not modelled (nothing reads it). */
  datatype Message = Message(
    id: MessageId,
    msgType: MessageType,
    sender: SenderType,
    content: string,
    products: Option<seq<Product>>)
}
