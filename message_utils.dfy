/**
 * Message records and the factory that stamps them with ids from one shared,
 * module-level counter.
 */
module MessageUtils {

  /** A map position; the model never computes with it. */
  datatype Coordinate = Coordinate(latitude: real, longitude: real)

  /** The `type` tag of a record. */
  datatype Kind = TextKind | ImageKind | LocationKind

  /**
   * A timeline record. Each variant carries exactly the payload of its kind,
   * which is the shape the record type describes with optional fields.
   */
  datatype Message =
    | Text(id: int, text: string)
    | Image(id: int, uri: string)
    | Location(id: int, coordinate: Coordinate)
  {
    /** The `type` tag: one of three, and it names the variant whose payload the record carries. */
    function KindOf(): (k: Kind)
      ensures k == TextKind <==> Text?
      ensures k == ImageKind <==> Image?
      ensures k == LocationKind <==> Location?
    {
      match this
      case Text(_, _) => TextKind
      case Image(_, _) => ImageKind
      case Location(_, _) => LocationKind
    }
  }

  /**
   * The module-level `messageId` counter. It starts at 0 when the module is
   * loaded; every id it hands out is the counter's new value.
   */
  class IdCounter {
    var messageId: nat

    constructor ()
      ensures messageId == 0
    {
      messageId := 0;
    }

    /** Bump the counter by one and return its new value. */
    method NextId() returns (id: nat)
      modifies this
      ensures messageId == old(messageId) + 1
      ensures id == messageId && id >= 1
    {
      messageId := messageId + 1;
      id := messageId;
    }

    method CreateTextMessage(text: string) returns (m: Message)
      modifies this
      ensures messageId == old(messageId) + 1
      ensures m == Text(messageId, text) && m.KindOf() == TextKind
      ensures m.id >= 1 && m.id > old(messageId)
    {
      var id := NextId();
      m := Text(id, text);
    }

    method CreateImageMessage(uri: string) returns (m: Message)
      modifies this
      ensures messageId == old(messageId) + 1
      ensures m == Image(messageId, uri) && m.KindOf() == ImageKind
      ensures m.id >= 1 && m.id > old(messageId)
    {
      var id := NextId();
      m := Image(id, uri);
    }

    method CreateLocationMessage(coordinate: Coordinate) returns (m: Message)
      modifies this
      ensures messageId == old(messageId) + 1
      ensures m == Location(messageId, coordinate) && m.KindOf() == LocationKind
      ensures m.id >= 1 && m.id > old(messageId)
    {
      var id := NextId();
      m := Location(id, coordinate);
    }
  }
}
