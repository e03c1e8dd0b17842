/** The wire envelope (model/Message.java). */
module Messages {
  import opened Wrappers
  import opened JavaInts
  import opened Peers

  const HELLO: string := "HELLO"
  const CHAT: string := "CHAT"
  const PEERSHARE: string := "PEERSHARE"

  /**
   * A message as it travels: every reference field may be `null` in a parsed
   * message (`None`), and so may any element of the peer list. `kind` is the
   * JSON field `type`.
   */
  datatype Message = Message(
    id: Option<string>,
    kind: Option<string>,
    fromId: Option<string>,
    fromName: Option<string>,
    text: Option<string>,
    timestamp: int64,
    peers: Option<seq<Option<PeerInfo>>>)

  /** `new Message()`: every reference field null, the timestamp zero. */
  const Blank: Message := Message(None, None, None, None, None, 0, None)

  /**
   * The accessor laws of the seven setters (`setType` sets `kind`): each replaces
   * its own field, so its getter returns the value stored, and leaves the other
   * six fields alone.
   */
  lemma SetterLaws(m: Message, id: Option<string>, kind: Option<string>, fromId: Option<string>,
                   fromName: Option<string>, text: Option<string>, timestamp: int64,
                   peers: Option<seq<Option<PeerInfo>>>)
    ensures m.(id := id) == Message(id, m.kind, m.fromId, m.fromName, m.text, m.timestamp, m.peers)
    ensures m.(kind := kind) == Message(m.id, kind, m.fromId, m.fromName, m.text, m.timestamp, m.peers)
    ensures m.(fromId := fromId) == Message(m.id, m.kind, fromId, m.fromName, m.text, m.timestamp, m.peers)
    ensures m.(fromName := fromName) == Message(m.id, m.kind, m.fromId, fromName, m.text, m.timestamp, m.peers)
    ensures m.(text := text) == Message(m.id, m.kind, m.fromId, m.fromName, text, m.timestamp, m.peers)
    ensures m.(timestamp := timestamp) == Message(m.id, m.kind, m.fromId, m.fromName, m.text, timestamp, m.peers)
    ensures m.(peers := peers) == Message(m.id, m.kind, m.fromId, m.fromName, m.text, m.timestamp, peers)
  {
  }

  /** A peer snapshot as stored in a message: every element present. */
  function PeerList(ps: seq<PeerInfo>): (r: seq<Option<PeerInfo>>)
    ensures |r| == |ps|
    ensures forall i :: 0 <= i < |ps| ==> r[i] == Some(ps[i])
  {
    seq(|ps|, i requires 0 <= i < |ps| => Some(ps[i]))
  }

  /**
   * `Message.chat`. The fresh `id` (a random UUID in Message.java) and the clock
   * reading `now` are inputs; the caller of the Java method supplies neither.
   */
  function Chat(id: string, now: int64, fromId: string, fromName: string, text: string): (m: Message) {
    Blank.(id := Some(id), kind := Some(CHAT), fromId := Some(fromId), fromName := Some(fromName),
           text := Some(text), timestamp := now)
  }

  /** `Message.hello`. The listening `port` is accepted and dropped, as Message.java does. */
  function Hello(id: string, now: int64, fromId: string, fromName: string, port: int32, peers: seq<PeerInfo>): (m: Message) {
    Blank.(id := Some(id), kind := Some(HELLO), fromId := Some(fromId), fromName := Some(fromName),
           timestamp := now, peers := Some(PeerList(peers)))
  }

  /** `Message.peerShare`. */
  function PeerShare(id: string, now: int64, fromId: string, fromName: string, peers: seq<PeerInfo>): (m: Message) {
    Blank.(id := Some(id), kind := Some(PEERSHARE), fromId := Some(fromId), fromName := Some(fromName),
           timestamp := now, peers := Some(PeerList(peers)))
  }

  /** The dispatcher's view of a message: which handler, if any, the `type` field selects. */
  datatype Kind = HelloKind | ChatKind | PeerShareKind | Ignored

  /** The `switch` on the type string; a null type or any other string is ignored. */
  function KindOf(m: Message): (k: Kind)
    ensures k == HelloKind <==> m.kind == Some(HELLO)
    ensures k == ChatKind <==> m.kind == Some(CHAT)
    ensures k == PeerShareKind <==> m.kind == Some(PEERSHARE)
  {
    match m.kind
    case None => Ignored
    case Some(t) =>
      if t == HELLO then HelloKind
      else if t == CHAT then ChatKind
      else if t == PEERSHARE then PeerShareKind
      else Ignored
  }

  /**
   * Each constructor fixes the type the dispatcher routes on, stores its
   * arguments in the matching fields, and populates only the fields of its kind:
   * text for a chat, the peer list for the other two.
   */
  lemma ConstructorsPopulateTheirKind(id: string, now: int64, from: string, name: string, text: string,
                                      port: int32, ps: seq<PeerInfo>)
    ensures var c := Chat(id, now, from, name, text);
      && KindOf(c) == ChatKind && c.id == Some(id) && c.timestamp == now
      && c.fromId == Some(from) && c.fromName == Some(name) && c.text == Some(text) && c.peers == None
    ensures var h := Hello(id, now, from, name, port, ps);
      && KindOf(h) == HelloKind && h.id == Some(id) && h.timestamp == now
      && h.fromId == Some(from) && h.fromName == Some(name) && h.text == None
      && h.peers.Some? && |h.peers.value| == |ps|
      && forall i :: 0 <= i < |ps| ==> h.peers.value[i] == Some(ps[i])
    ensures var s := PeerShare(id, now, from, name, ps);
      && KindOf(s) == PeerShareKind && s.id == Some(id) && s.timestamp == now
      && s.fromId == Some(from) && s.fromName == Some(name) && s.text == None
      && s.peers.Some? && |s.peers.value| == |ps|
      && forall i :: 0 <= i < |ps| ==> s.peers.value[i] == Some(ps[i])
  {
  }

  /** `hello` stores its `port` argument in no field: two ports give the same message. */
  lemma HelloIgnoresPort(id: string, now: int64, from: string, name: string, p1: int32, p2: int32, ps: seq<PeerInfo>)
    ensures Hello(id, now, from, name, p1, ps) == Hello(id, now, from, name, p2, ps)
  {
  }

  /** A HELLO and a PEERSHARE built from the same inputs differ only in their type. */
  lemma HelloIsPeerShareButForKind(id: string, now: int64, from: string, name: string, port: int32, ps: seq<PeerInfo>)
    ensures Hello(id, now, from, name, port, ps) == PeerShare(id, now, from, name, ps).(kind := Some(HELLO))
  {
  }

  /**
   * What the JSON parser yields for one line: a syntax error, a `null` object
   * (an empty line parses to `null`), or a message.
   */
  datatype Decoded = Malformed | NullMessage | Parsed(msg: Message)
}
