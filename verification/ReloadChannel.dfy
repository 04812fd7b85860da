/** The channel of capacity one on which reloads are asked for (cmd/server.go). */
module ReloadChannel {

  /** Holds at most one request. */
  class Channel {
    var queued: bool

    constructor ()
      ensures !queued
    {
      queued := false;
    }

    /** Drops the request if one is waiting; never blocks. */
    method TrySend()
      modifies this
      ensures queued
    {
      if !queued {
        queued := true;
      }
    }

    method Receive()
      requires queued
      modifies this
      ensures !queued
    {
      queued := false;
    }
  }
}
