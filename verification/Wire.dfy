/** What nodes send each other about groups, and what is assumed of hashing, encoding and keys.

    A hash is a constructor applied to what was hashed, so hashes collide only when the hashed
    bytes are equal, and the two uses of the hash (tags 0x00 and 0x01) never collide. Encoding
    and keys are the functions of a `World`; nothing is assumed of them unless a lemma says so. */
module Wire {
  import opened Base

  datatype GroupId = Zero | OfGenesis(body: Bytes)

  datatype EntryHash = NoParent | OfBody(body: Bytes)

  datatype Op =
    | Create(admin: PeerText, nonce: Bytes, name: Name)
    | Add(peer: PeerText)
    | Remove(peer: PeerText)

  datatype EntryBody = EntryBody(group: GroupId, seqNo: nat, prev: EntryHash, at: int, op: Op)

  datatype Entry = Entry(body: Bytes, signature: Bytes) {
    function WireLen(): nat {
      |body| + |signature|
    }

    function Hash(): EntryHash {
      OfBody(body)
    }
  }

  datatype Position = Unanswered | In | Out

  datatype StandingBody = StandingBody(
    group: GroupId, peer: PeerText, seqNo: U64, position: Position, username: Name, at: int)

  datatype Standing = Standing(body: Bytes, signature: Bytes) {
    function WireLen(): nat {
      |body| + |signature|
    }
  }

  /** The hash of what each member said about itself, as a peer compares it. */
  datatype Digest = Zeroes | Sha256(preimage: Bytes)

  datatype GroupHead = GroupHead(group: GroupId, headSeq: nat, headHash: EntryHash, standings: Digest)

  datatype World = World(
    decodeEntry: Bytes -> Option<EntryBody>,
    encodeEntry: EntryBody -> Option<Bytes>,
    decodeStanding: Bytes -> Option<StandingBody>,
    encodeStanding: StandingBody -> Option<Bytes>,
    sign: (Peer, Bytes) -> Option<Bytes>,
    verify: (Peer, Bytes, Bytes) -> bool,
    recoverable: Peer -> bool,
    normalise: Name -> Option<Name>,
    peerBytes: Peer -> Bytes)
  {
    function EntryBodyOf(entry: Entry): Option<EntryBody> {
      decodeEntry(entry.body)
    }

    function StandingBodyOf(standing: Standing): Option<StandingBody> {
      decodeStanding(standing.body)
    }

    function EncodedEntry(body: EntryBody): Option<Bytes> {
      encodeEntry(body)
    }

    function EncodedStanding(body: StandingBody): Option<Bytes> {
      encodeStanding(body)
    }

    /** `key.sign`, the key being the one `key` is the identity of. */
    function Signature(key: Peer, body: Bytes): Option<Bytes> {
      sign(key, body)
    }

    /** Whether the peer's identity embeds its key, so that signatures can be checked. */
    predicate HasKey(peer: Peer) {
      recoverable(peer)
    }

    predicate Verifies(peer: Peer, body: Bytes, signature: Bytes) {
      verify(peer, body, signature)
    }

    function Normalised(raw: Name): Option<Name> {
      normalise(raw)
    }

    function PeerIdBytes(peer: Peer): Bytes {
      peerBytes(peer)
    }
  }

  /** What is encoded decodes back to itself. */
  ghost predicate EncodingsDecode(w: World) {
    && (forall b: EntryBody, signature: Bytes {:trigger w.EntryBodyOf(Entry(w.EncodedEntry(b).value, signature))} ::
          w.EncodedEntry(b).Some? ==> w.EntryBodyOf(Entry(w.EncodedEntry(b).value, signature)) == Some(b))
    && (forall b: StandingBody, signature: Bytes
          {:trigger w.StandingBodyOf(Standing(w.EncodedStanding(b).value, signature))} ::
          w.EncodedStanding(b).Some? ==>
            w.StandingBodyOf(Standing(w.EncodedStanding(b).value, signature)) == Some(b))
  }
}
