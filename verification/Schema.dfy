/**
The database of internal/store/schema.go as values, and what each statement of the store does to it.

Identifiers that the database generates (AUTOINCREMENT) and that the service draws at random are
arguments here. All that is ever assumed of them is that they are new: larger than any used before,
or not used before.
*/
module Schema {
  import opened Common
  import opened Seqs
  import opened Entities

  datatype ConversationRow = ConversationRow(owner: string, title: string, created: int, updated: int)

  datatype MessageRow = MessageRow(id: int, conversation: string, role: string, text: string, created: int)

  datatype ImageRow = ImageRow(id: int, message: int, mediaType: string, data: Bytes)

  datatype IngredientRow = IngredientRow(id: int, owner: string, name: string, inStock: bool, created: int)

  datatype JournalRow = JournalRow(owner: string, entry: JournalEntry)

  datatype Tables = Tables(
    conversations: map<string, ConversationRow>,
    messages: seq<MessageRow>,
    images: seq<ImageRow>,
    ingredients: seq<IngredientRow>,
    journal: seq<JournalRow>)

  const NO_ROWS: Tables := Tables(map[], [], [], [], [])

  // ---------------------------------------------------------------------------------------------
  // Choosing rows
  // ---------------------------------------------------------------------------------------------

  function InConversation(conv: string): MessageRow -> bool { (m: MessageRow) => m.conversation == conv }

  function NotInConversation(conv: string): MessageRow -> bool { (m: MessageRow) => m.conversation != conv }

  function AttachedTo(ids: set<int>): ImageRow -> bool { (i: ImageRow) => i.message in ids }

  function NotAttachedTo(ids: set<int>): ImageRow -> bool { (i: ImageRow) => i.message !in ids }

  function OfMessage(id: int): ImageRow -> bool { (i: ImageRow) => i.message == id }

  function Ids(rows: seq<MessageRow>): (r: set<int>)
    ensures forall id :: id in r <==> exists k :: 0 <= k < |rows| && rows[k].id == id
  {
    set k | 0 <= k < |rows| :: rows[k].id
  }

  function Rows(t: Tables, conv: string): seq<MessageRow> { Filter(InConversation(conv), t.messages) }

  function ImageRows(t: Tables, conv: string): seq<ImageRow> {
    Filter(AttachedTo(Ids(Rows(t, conv))), t.images)
  }

  predicate Owns(t: Tables, owner: string, conv: string) {
    conv in t.conversations && t.conversations[conv].owner == owner
  }

  // ---------------------------------------------------------------------------------------------
  // Conversations
  // ---------------------------------------------------------------------------------------------

  const TITLE_RUNES: int := 60

  function TitleFrom(text: string): (r: string)
    ensures r != ""
  {
    if text == "" then "Photo"
    else if |text| > TITLE_RUNES then text[..TITLE_RUNES] + "\U{2026}"
    else text
  }

  /** A title for a first message: its words, as many as 60 characters of them, or that it is a photo. */
  predicate TitleFits(title: string, text: string) {
    if text == "" then title == "Photo"
    else if |text| <= 60 then title == text
    else |title| == 61 && title[..60] == text[..60] && title[60] == '\U{2026}'
  }

  lemma TitleFromFits(text: string)
    ensures TitleFits(TitleFrom(text), text)
  {}

  function CreateConversation(t: Tables, owner: string, conv: string, now: int): Tables {
    t.(conversations := t.conversations[conv := ConversationRow(owner, "", now, now)])
  }

  /** A delete takes the messages along, and those their images. */
  function DeleteConversation(t: Tables, owner: string, conv: string): Tables {
    if Owns(t, owner, conv) then
      t.(conversations := t.conversations - {conv},
         messages := Filter(NotInConversation(conv), t.messages),
         images := Filter(NotAttachedTo(Ids(Rows(t, conv))), t.images))
    else t
  }

  datatype NewIds = NewIds(user: int, images: seq<int>, answer: int)

  function NewImages(user: Message, ids: NewIds): (r: seq<ImageRow>)
    requires |ids.images| == |user.images|
    ensures |r| == |user.images|
    ensures forall i | 0 <= i < |r| ::
        r[i] == ImageRow(ids.images[i], ids.user, user.images[i].mediaType, user.images[i].data)
  {
    seq(|user.images|, i requires 0 <= i < |user.images| =>
      ImageRow(ids.images[i], ids.user, user.images[i].mediaType, user.images[i].data))
  }

  function NewMessages(conv: string, user: Message, answer: string, now: int, ids: NewIds): seq<MessageRow> {
    [MessageRow(ids.user, conv, "user", user.text, now), MessageRow(ids.answer, conv, "assistant", answer, now)]
  }

  /** The transaction when nothing goes wrong; a conversation that is not there, or not theirs, changes nothing. */
  function AppendExchange(t: Tables, owner: string, conv: string, user: Message, answer: string, now: int, ids: NewIds): Tables
    requires |ids.images| == |user.images|
  {
    if Owns(t, owner, conv) then
      var c := t.conversations[conv];
      t.(conversations := t.conversations[conv :=
           c.(title := if c.title == "" then TitleFrom(user.text) else c.title, updated := now)],
         messages := t.messages + NewMessages(conv, user, answer, now, ids),
         images := t.images + NewImages(user, ids))
    else t
  }

  /** One photo, through its message and conversation to its owner. */
  function OwnedBy(t: Tables, owner: string): MessageRow -> bool {
    (m: MessageRow) => Owns(t, owner, m.conversation)
  }

  function WithId(id: int): ImageRow -> bool { (i: ImageRow) => i.id == id }

  function ImageOf(row: ImageRow): Image { Image(row.id, row.mediaType, row.data) }

  function FindImage(t: Tables, owner: string, id: int): Option<Image> {
    var found := Filter(WithId(id), Filter(AttachedTo(Ids(Filter(OwnedBy(t, owner), t.messages))), t.images));
    if found == [] then None else Some(ImageOf(found[0]))
  }

  // ---------------------------------------------------------------------------------------------
  // Pantry
  // ---------------------------------------------------------------------------------------------

  function TheirIngredient(owner: string): IngredientRow -> bool { (i: IngredientRow) => i.owner == owner }

  predicate HasName(rows: seq<IngredientRow>, owner: string, name: string) {
    exists i :: 0 <= i < |rows| && rows[i].owner == owner && rows[i].name == name
  }

  function Switched(row: IngredientRow, owner: string, name: string): IngredientRow {
    if row.owner == owner && row.name == name then row.(inStock := true) else row
  }

  function SwitchedAll(rows: seq<IngredientRow>, owner: string, name: string): (r: seq<IngredientRow>)
    ensures |r| == |rows| && forall i | 0 <= i < |r| :: r[i] == Switched(rows[i], owner, name)
  {
    seq(|rows|, i requires 0 <= i < |rows| => Switched(rows[i], owner, name))
  }

  /** INSERT ... ON CONFLICT (owner, name) DO UPDATE SET in_stock = 1. */
  function Upsert(rows: seq<IngredientRow>, owner: string, name: string, id: int, now: int): (r: seq<IngredientRow>)
    ensures |r| == |rows| + if HasName(rows, owner, name) then 0 else 1
  {
    if HasName(rows, owner, name) then SwitchedAll(rows, owner, name)
    else rows + [IngredientRow(id, owner, name, true, now)]
  }

  function UpsertAll(rows: seq<IngredientRow>, owner: string, names: seq<string>, ids: seq<int>, now: int): seq<IngredientRow>
    requires |ids| == |names|
    decreases |names|
  {
    if names == [] then rows
    else
      var n := |names| - 1;
      Upsert(UpsertAll(rows, owner, names[..n], ids[..n], now), owner, names[n], ids[n], now)
  }

  function AddIngredients(t: Tables, owner: string, names: seq<string>, ids: seq<int>, now: int): Tables
    requires |ids| == |names|
  {
    t.(ingredients := UpsertAll(t.ingredients, owner, names, ids, now))
  }

  predicate IsIngredient(row: IngredientRow, owner: string, id: int) { row.id == id && row.owner == owner }

  predicate HasIngredient(t: Tables, owner: string, id: int) {
    exists i :: 0 <= i < |t.ingredients| && IsIngredient(t.ingredients[i], owner, id)
  }

  function SetRow(row: IngredientRow, owner: string, id: int, inStock: bool): IngredientRow {
    if IsIngredient(row, owner, id) then row.(inStock := inStock) else row
  }

  function SetAll(rows: seq<IngredientRow>, owner: string, id: int, inStock: bool): (r: seq<IngredientRow>)
    ensures |r| == |rows| && forall i | 0 <= i < |r| :: r[i] == SetRow(rows[i], owner, id, inStock)
  {
    seq(|rows|, i requires 0 <= i < |rows| => SetRow(rows[i], owner, id, inStock))
  }

  function SetInStock(t: Tables, owner: string, id: int, inStock: bool): Tables {
    t.(ingredients := SetAll(t.ingredients, owner, id, inStock))
  }

  function NotIngredient(owner: string, id: int): IngredientRow -> bool {
    (i: IngredientRow) => !IsIngredient(i, owner, id)
  }

  function DeleteIngredient(t: Tables, owner: string, id: int): Tables {
    t.(ingredients := Filter(NotIngredient(owner, id), t.ingredients))
  }

  // ---------------------------------------------------------------------------------------------
  // Journal
  // ---------------------------------------------------------------------------------------------

  function TheirEntry(owner: string): JournalRow -> bool { (r: JournalRow) => r.owner == owner }

  function NotEntry(owner: string, id: int): JournalRow -> bool {
    (r: JournalRow) => !(r.entry.id == id && r.owner == owner)
  }

  predicate HasEntry(t: Tables, owner: string, id: int) {
    exists i :: 0 <= i < |t.journal| && t.journal[i].entry.id == id && t.journal[i].owner == owner
  }

  function AddJournalEntry(t: Tables, owner: string, entry: JournalEntry): Tables {
    t.(journal := t.journal + [JournalRow(owner, entry)])
  }

  function DeleteJournalEntry(t: Tables, owner: string, id: int): Tables {
    t.(journal := Filter(NotEntry(owner, id), t.journal))
  }
}
