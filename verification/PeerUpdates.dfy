/** What adding and removing peers does, as far as it decides about the panics of the code. */
module PeerUpdates {
  import opened Crypto
  import Cycle = LfsrCycle

  /** How an update of a peer can end. All but the first and the second are panics of the code. */
  datatype Outcome = Added | PeerRemoved | PeerExists | TooManyPeers | NoKey

  predicate Panics(o: Outcome) {
    !o.Added? && !o.PeerRemoved?
  }

  /** The peers, whether there is a private key, and how many indexes were drawn. */
  datatype Content = Content(peers: set<Bytes>, keyed: bool, drawn: nat)

  function Update(d: Content, key: Bytes, remove: bool): (Content, Outcome) {
    if remove then (d.(peers := d.peers - {key}), PeerRemoved)
    else if key in d.peers then (d, PeerExists)
    else if d.drawn == Cycle.CYCLE - 1 then (d.(drawn := d.drawn + 1), TooManyPeers)
    else if !d.keyed then (d.(drawn := d.drawn + 1), NoKey)
    else (d.(peers := d.peers + {key}, drawn := d.drawn + 1), Added)
  }
}
