/** The values that pass between the store, the API and the chat model. */
module Entities {
  import opened Common

  type Bytes = seq<bv8>

  datatype Image = Image(id: int, mediaType: string, data: Bytes)

  datatype Message = Message(id: int, role: string, text: string, images: seq<Image>, createdAt: int)

  datatype Ingredient = Ingredient(id: int, name: string, inStock: bool)

  datatype JournalEntry = JournalEntry(
    id: int, cookedOn: string, dish: string, taste: int, minutes: Option<int>, note: string, createdAt: int)

  /** What of a message reaches the model: ids and times do not. */
  datatype Photo = Photo(mediaType: string, data: Bytes)
  datatype Turn = Turn(role: string, text: string, photos: seq<Photo>)

  function PhotosOf(images: seq<Image>): (r: seq<Photo>)
    ensures |r| == |images| && forall i | 0 <= i < |r| :: r[i] == Photo(images[i].mediaType, images[i].data)
  {
    seq(|images|, i requires 0 <= i < |images| => Photo(images[i].mediaType, images[i].data))
  }

  function TurnOf(m: Message): Turn { Turn(m.role, m.text, PhotosOf(m.images)) }

  function TurnsOf(ms: seq<Message>): (r: seq<Turn>)
    ensures |r| == |ms| && forall i | 0 <= i < |r| :: r[i] == TurnOf(ms[i])
  {
    seq(|ms|, i requires 0 <= i < |ms| => TurnOf(ms[i]))
  }
}
