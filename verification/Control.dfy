// The vocabulary of the control stream (crates/core/src/session/control.rs) and the
// sender's verdict on a reported result (crates/cli/src/send/transfer.rs).
module Control {
  const VERSION := 1

  /** What SPAKE2 makes of the words of the two sides: one key if they agree, and
      two unrelated ones if they do not. A confirmation token stands for its key. */
  datatype Key = Shared(words: string) | Apart(own: string, peer: string)

  function Derive(own: string, peer: string): Key {
    if own == peer then Shared(own) else Apart(own, peer)
  }

  datatype FileMeta = FileMeta(name: string, size: nat, hash: string)

  /** The totals a receive reports. */
  datatype Totals = Totals(bytes: nat, files: nat, skippedBytes: nat, skippedFiles: nat)

  datatype Frame =
    | Hello(version: nat)
    | Offer(files: seq<FileMeta>, total: nat)
    | Accept
    | Decline(reason: string)
    | Cancel
    | Result(totals: Totals)
    | Spake(words: string)     // the message that lets the peer derive its key
    | Confirm(key: Key)        // the confirmation token
  {
    /** Written with the handshake format, which the control reader cannot parse,
        and the other way round. */
    predicate Handshake() {
      Spake? || Confirm?
    }

    /** The check that follows the parsing of a control message. */
    predicate Current() {
      Hello? ==> version == VERSION
    }
  }

  /** The sender's verdict on a reported result. */
  predicate ResultMatches(bytes: nat, files: nat, skippedBytes: nat, skippedFiles: nat, total: nat, fileCount: nat) {
    bytes + skippedBytes == total && files + skippedFiles == fileCount
  }
}
