/** JSON texts by the grammar of RFC 8259, and the tokens they have: the tokenizer gives a text's tokens in preorder, each
    with the number of its members or elements. */
module JsmnTrees {
  import opened Bits
  import opened Folding
  import opened JsmnSpec

  // ---- Texts --------------------------------------------------------------------------------------------

  /** A value; between the tokens any blanks. Strings are what stands between the quotes. */
  datatype Json = Str(body: seq<byte>) | Prim(text: seq<byte>) | Arr(gap: seq<byte>, items: Items) | Obj(gap: seq<byte>, members: Members)

  datatype Items = NoItems | Item(before: seq<byte>, value: Json, after: seq<byte>, others: Items)

  datatype Members =
    NoMembers | Member(before: seq<byte>, key: seq<byte>, colon: seq<byte>, gap: seq<byte>, value: Json, after: seq<byte>, others: Members)

  function Quoted(body: seq<byte>): seq<byte> {
    [0x22] + (body + [0x22])
  }

  function Text(v: Json): seq<byte>
    decreases v
  {
    match v
    case Str(body) => Quoted(body)
    case Prim(text) => text
    case Arr(gap, items) => [0x5B] + (gap + (ItemsText(items) + [0x5D]))
    case Obj(gap, members) => [0x7B] + (gap + (MembersText(members) + [0x7D]))
  }

  /** The elements of an array, with commas between them. */
  function ItemsText(items: Items): seq<byte>
    decreases items
  {
    match items
    case NoItems => []
    case Item(before, value, after, others) =>
      before + (Text(value) + (after + if others.NoItems? then [] else [0x2C] + ItemsText(others)))
  }

  /** The members of an object, each with a key and a colon. */
  function MembersText(members: Members): seq<byte>
    decreases members
  {
    match members
    case NoMembers => []
    case Member(before, key, colon, gap, value, after, others) =>
      before + (Quoted(key) + (colon + ([0x3A] + (gap + (Text(value) +
        (after + if others.NoMembers? then [] else [0x2C] + MembersText(others)))))))
  }

  // ---- What may stand in them ---------------------------------------------------------------------------

  /** Spaces, tabs, line feeds and carriage returns. */
  predicate Blanks(b: seq<byte>) {
    forall i | 0 <= i < |b| :: b[i] == 0x20 || b[i] == 0x09 || b[i] == 0x0A || b[i] == 0x0D
  }

  /** One of the characters " \\ / b f n r t. */
  predicate Escaped(c: byte) {
    c == 0x22 || c == 0x5C || c == 0x2F || c == 0x62 || c == 0x66 || c == 0x6E || c == 0x72 || c == 0x74
  }

  /** A digit, or a letter from a to f. */
  predicate HexDigit(c: byte) {
    0x30 <= c <= 0x39 || 0x41 <= c <= 0x46 || 0x61 <= c <= 0x66
  }

  /** Characters other than the quote and the backslash, and escapes. */
  predicate Body(b: seq<byte>)
    decreases |b|
  {
    if b == [] then true
    else if b[0] == 0x5C then
      |b| >= 2 &&
      if b[1] == 0x75 then |b| >= 6 && HexDigit(b[2]) && HexDigit(b[3]) && HexDigit(b[4]) && HexDigit(b[5]) && Body(b[6..])
      else Escaped(b[1]) && Body(b[2..])
    else b[0] != 0 && b[0] != 0x22 && Body(b[1..])
  }

  /** Visible characters other than the comma, the colon and closing brackets; at the start no bracket or quote. This
      has room for numbers, true, false and null. */
  predicate Plain(text: seq<byte>) {
    text != [] && text[0] != 0x7B && text[0] != 0x5B && text[0] != 0x22 &&
    forall i | 0 <= i < |text| :: 0x20 < text[i] < 0x7F && text[i] != 0x2C && text[i] != 0x3A && text[i] != 0x5D && text[i] != 0x7D
  }

  predicate Formed(v: Json)
    decreases v
  {
    match v
    case Str(body) => Body(body)
    case Prim(text) => Plain(text)
    case Arr(gap, items) => Blanks(gap) && FormedItems(items)
    case Obj(gap, members) => Blanks(gap) && FormedMembers(members)
  }

  predicate FormedItems(items: Items)
    decreases items
  {
    match items
    case NoItems => true
    case Item(before, value, after, others) => Blanks(before) && Formed(value) && Blanks(after) && FormedItems(others)
  }

  predicate FormedMembers(members: Members)
    decreases members
  {
    match members
    case NoMembers => true
    case Member(before, key, colon, gap, value, after, others) =>
      Blanks(before) && Body(key) && Blanks(colon) && Blanks(gap) && Formed(value) && Blanks(after) && FormedMembers(others)
  }

  // ---- The tokens of a text -------------------------------------------------------------------------------

  function ItemCount(items: Items): nat {
    if items.NoItems? then 0 else 1 + ItemCount(items.others)
  }

  function MemberCount(members: Members): nat {
    if members.NoMembers? then 0 else 1 + MemberCount(members.others)
  }

  /** The tokens of a value that starts at p, in preorder: of an object with the number of its members, of an array with
      that of its elements. */
  function Tokens(v: Json, p: nat): (t: seq<Token>)
    ensures t != []
    decreases v
  {
    match v
    case Str(body) => [Token(String, p + 1, p + 1 + |body|, 0)]
    case Prim(text) => [Token(Primitive, p, p + |text|, 0)]
    case Arr(gap, items) => [Token(Array, p, p + |Text(v)|, ItemCount(items))] + ItemsTokens(items, p + 1 + |gap|)
    case Obj(gap, members) => [Token(Object, p, p + |Text(v)|, MemberCount(members))] + MembersTokens(members, p + 1 + |gap|)
  }

  function ItemsTokens(items: Items, p: nat): seq<Token>
    decreases items
  {
    match items
    case NoItems => []
    case Item(before, value, after, others) =>
      var q := p + |before|;
      Tokens(value, q) + ItemsTokens(others, q + |Text(value)| + |after| + 1)
  }

  /** A key has the size 1, for its value. */
  function MembersTokens(members: Members, p: nat): seq<Token>
    decreases members
  {
    match members
    case NoMembers => []
    case Member(before, key, colon, gap, value, after, others) =>
      var q := p + |before|;
      var r := q + |Quoted(key)| + |colon| + 1 + |gap|;
      [Token(String, q + 1, q + 1 + |key|, 1)] + (Tokens(value, r) + MembersTokens(others, r + |Text(value)| + |after| + 1))
  }
}
