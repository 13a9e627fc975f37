/** The server's side of a rewrite (aof.c): what it does to its buffer are steps of the protocol. */
module RewriteSteps {
  import opened AofRewrite
  import opened Bytes
  import opened OptionType
  import opened RewriteBuffer

  /** The blocks hold what the protocol's buffer does. */
  ghost predicate Buffers(b: Buffer, s: State)
    reads b, b.Repr
  {
    b.Valid() && b.Contents() == s.buffer && !s.handled
  }

  /** aofRewriteBufferAppend, called with what was fed. */
  method FeedRewrite(b: Buffer, text: bytes, ghost s: State, ghost snapshot: bytes)
    requires Buffers(b, s)
    modifies b, b.Repr
    ensures Buffers(b, Apply(s, Feed(text), snapshot)) && fresh(b.Repr - old(b.Repr))
  {
    b.Append(text);
  }

  /** aofChildWriteDiffData, given what its writes return. */
  method SendToChild(b: Buffer, stop: bool, results: seq<int>, ghost s: State, ghost snapshot: bytes)
    returns (sent: bytes, uninstalled: bool, ghost es: seq<Event>)
    requires Buffers(b, s) && s.installed && stop == s.stop
    modifies b`blocks, b`Parts, b.Repr
    ensures Legal(s, es, snapshot) && Buffers(b, After(s, es, snapshot))
    ensures After(s, es, snapshot)
         == s.(pipe := s.pipe + sent, buffer := b.Contents(), installed := !uninstalled)
  {
    sent, uninstalled := b.ChildWriteDiffData(stop, results);
    es := HandlerIsEvents(s, sent, b.Contents(), uninstalled, snapshot);
  }

  /**
   The end of a rewrite whose child succeeded: the rest of the buffer is
   written, or the file is given up. The file is installed exactly if every
   write is complete, and is then the child's with the whole buffer behind it.
   */
  method FinishRewrite(b: Buffer, results: seq<int>, file: bytes, ghost s: State, ghost snapshot: bytes)
    returns (ok: bool, installed: Option<bytes>)
    requires Buffers(b, s) && s.phase == Exited(true) && file == s.file
    ensures installed == Apply(s, ServerFinishes(ok), snapshot).installedFile
    ensures ok <==> WritesWhole(b.Parts, results)
    ensures installed == if ok then Some(file + b.Contents()) else None
  {
    var written;
    ok, written := b.Write(results);
    installed := if ok then Some(file + written) else None;
  }
}
