/** The peer record (model/PeerInfo.java). */
module Peers {
  import opened Wrappers
  import opened JavaInts

  /**
   * A known peer. The record has exactly these five fields; a `null` string is
   * `None`. Java's setters are the datatype update `p.(field := value)`, which
   * replaces one field and keeps the others.
   */
  datatype PeerInfo = PeerInfo(
    id: Option<string>,
    name: Option<string>,
    host: Option<string>,
    port: int32,
    lastSeen: int64)

  /** `new PeerInfo()`: every reference field null, every number zero. */
  const Blank: PeerInfo := PeerInfo(None, None, None, 0, 0)

  /**
   * The accessor laws the five getters and setters obey: each setter replaces its
   * own field, so its getter returns the value stored, and leaves the other four
   * fields alone; of two calls to one setter the later wins.
   */
  lemma SetterLaws(p: PeerInfo, id: Option<string>, name: Option<string>, host: Option<string>,
                   port: int32, t: int64, t': int64)
    ensures p.(id := id) == PeerInfo(id, p.name, p.host, p.port, p.lastSeen)
    ensures p.(name := name) == PeerInfo(p.id, name, p.host, p.port, p.lastSeen)
    ensures p.(host := host) == PeerInfo(p.id, p.name, host, p.port, p.lastSeen)
    ensures p.(port := port) == PeerInfo(p.id, p.name, p.host, port, p.lastSeen)
    ensures p.(lastSeen := t) == PeerInfo(p.id, p.name, p.host, p.port, t)
    ensures p.(lastSeen := t).(lastSeen := t') == p.(lastSeen := t')
    ensures p.(lastSeen := t).(lastSeen := p.lastSeen) == p
  {
  }
}
