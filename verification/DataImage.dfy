/** The bytes that an assembler makes of the data directives. */
module DataImage {
  import opened Common
  import opened Numerals
  import opened Escapes
  import opened Folds
  import opened Program
  import opened Events
  import opened Labels
  import opened Notes

  function Zeros(n: nat): seq<Byte> {
    seq(n, _ => 0)
  }

  /** The bytes a line adds; unknown for code and for symbolic data, and for what cannot be read. */
  function DirectiveBytes(e: Event): Option<seq<Byte>> {
    match e
    case ByteDirective(text) =>
      var n := ReadNumber(text);
      if n.Some? && 0 <= n.value < 256 then Some([n.value]) else None
    case ZeroDirective(text) =>
      var n := ReadNumber(text);
      if n.Some? && n.value >= 0 then Some(Zeros(n.value)) else None
    case StringDirective(text) =>
      var contents := DecodeLiteral(text);
      if contents.Some? then Some(contents.value + [0]) else None
    case SymbolicData(_, _, _) => None
    case Instruction(_, _, _) => None
    case Nop(_) => None
    case Align(_) => None
    case SectionHeader(_) => None
    case SectionFooter(_) => None
    case Prologue(_) => None
    case AddressNote(_, text) => if ReadableNote(text) then Some([]) else None
    case _ => Some([])
  }

  function AddBytes(image: Option<seq<Byte>>, e: Event): Option<seq<Byte>> {
    if image.None? || DirectiveBytes(e).None? then None else Some(image.value + DirectiveBytes(e).value)
  }

  /** The bytes of the events, one after the other, after those of an image. */
  function Image(image: Option<seq<Byte>>, es: seq<Event>): Option<seq<Byte>> {
    Fold(AddBytes, image, es)
  }

  lemma ByteMeans(image: seq<Byte>, b: Byte)
    ensures Image(Some(image), [ByteEvent(b)]) == Some(image + [b])
  {
    ReadHex(b);
    FoldOne(AddBytes, Some(image), ByteEvent(b));
  }

  lemma OneMoreByte(image: seq<Byte>, init: seq<Byte>, last: Byte, es: seq<Event>)
    requires Image(Some(image), es) == Some(image + init)
    ensures Image(Some(image), es + [ByteEvent(last)]) == Some(image + (init + [last]))
  {
    ByteMeans(image + init, last);
    Associate(image, init, [last]);
    FoldConcat(AddBytes, Some(image), es, [ByteEvent(last)]);
  }

  lemma LastByte(bytes: seq<Byte>) returns (init: seq<Byte>, last: Byte)
    requires bytes != []
    ensures |init| == |bytes| - 1 && init + [last] == bytes
    ensures ByteEvents(bytes) == ByteEvents(init) + [ByteEvent(last)]
  {
    init, last := bytes[..|bytes| - 1], bytes[|bytes| - 1];
  }

  lemma {:induction false} BytesMean(image: seq<Byte>, bytes: seq<Byte>)
    ensures Image(Some(image), ByteEvents(bytes)) == Some(image + bytes)
    decreases |bytes|
  {
    if bytes == [] {
      Empty(image);
    } else {
      var init, last := LastByte(bytes);
      BytesMean(image, init);
      OneMoreByte(image, init, last, ByteEvents(init));
    }
  }

  lemma ZeroMeans(image: seq<Byte>, n: nat)
    ensures Image(Some(image), [ZeroDirective(FormatInt(PLAIN, n))]) == Some(image + Zeros(n))
  {
    ReadDecimal(n);
    FoldOne(AddBytes, Some(image), ZeroDirective(FormatInt(PLAIN, n)));
  }

  lemma StringMeans(image: seq<Byte>, bytes: seq<Byte>)
    ensures Image(Some(image), [StringDirective(Literal(bytes))]) == Some(image + (NonZero(bytes) + [0]))
  {
    LiteralRoundTrip(bytes);
    FoldOne(AddBytes, Some(image), StringDirective(Literal(bytes)));
  }

  /** The directives for this block give its bytes back. */
  predicate Restores(m: Module, d: DataBlock) {
    AllZero(d.bytes) || !IsStringEncoded(m, d) || IsCString(d.bytes)
  }

  /** What the directives for the block mean, whatever its encoding. */
  function ContentImage(m: Module, d: DataBlock): seq<Byte> {
    if AllZero(d.bytes) || !IsStringEncoded(m, d) then d.bytes else NonZero(d.bytes) + [0]
  }

  lemma ContentMeans(image: seq<Byte>, j: Job, d: DataBlock)
    requires d.address !in j.m.symexprs
    ensures Image(Some(image), ContentEvents(j, d)) == Some(image + ContentImage(j.m, d))
    ensures ContentImage(j.m, d) == d.bytes <==> Restores(j.m, d)
  {
    StringRestores(d.bytes);
    if AllZero(d.bytes) {
      ZeroMeans(image, |d.bytes|);
      assert Zeros(|d.bytes|) == d.bytes;
    } else if IsStringEncoded(j.m, d) {
      StringMeans(image, d.bytes);
    } else {
      BytesMean(image, d.bytes);
    }
  }

  /** Events that add nothing. */
  lemma NoBytes(image: seq<Byte>, es: seq<Event>)
    requires forall e :: e in es ==> DirectiveBytes(e) == Some([])
    ensures Image(Some(image), es) == Some(image)
  {
    Empty(image);
    FoldKeeps(AddBytes, Some(image), es);
  }

  /** An illegible note spoils everything. */
  lemma DataNoteMeans(j: Job, d: DataBlock, image: seq<Byte>)
    ensures Image(Some(image), DataNoteEvents(j, d.address)) ==
      if j.policy.debug && !Legible(d.address) then None else Some(image)
  {
    if j.policy.debug {
      NoteOfData(j, d.address);
      FoldOne(AddBytes, Some(image), DataNoteEvents(j, d.address)[0]);
      Empty(image);
    } else {
      NoBytes(image, []);
    }
  }

  lemma {:induction false} NoImage(es: seq<Event>)
    ensures Image(None, es) == None
  {
    if es != [] {
      NoImage(es[..|es| - 1]);
    }
  }

  lemma AroundContent(j: Job, d: DataBlock, image: seq<Byte>)
    ensures Image(Some(image), CommentEvents(j, d.id, 0, |d.bytes|)) == Some(image)
    ensures Image(Some(image), [LabelGroup(j.m, d.address)]) == Some(image)
  {
    CommentEventsArePlain(j, d.id, 0, |d.bytes|);
    NoBytes(image, CommentEvents(j, d.id, 0, |d.bytes|));
    NoBytes(image, [LabelGroup(j.m, d.address)]);
  }

  /**
   Assembling what is printed for a data block without symbolic expression gives back exactly its
   bytes, unless it is encoded as a string without being one; then it gives other bytes. In debug
   mode the address before the directive has to be legible.
   */
  lemma DataRestored(j: Job, d: DataBlock, image: seq<Byte>)
    requires !SkipEA(j, d.address) && !ShouldExclude(j, ContainerSection(j.m, d.address), d.address)
    requires d.address !in j.m.symexprs
    ensures Image(Some(image), DataEvents(j, d)) ==
      if j.policy.debug && !Legible(d.address) then None else Some(image + ContentImage(j.m, d))
    ensures Image(Some(image), DataEvents(j, d)) == Some(image + d.bytes) <==>
      Restores(j.m, d) && (j.policy.debug ==> Legible(d.address))
  {
    var comments, note := CommentEvents(j, d.id, 0, |d.bytes|), DataNoteEvents(j, d.address);
    var content := ContentEvents(j, d);
    var group := [LabelGroup(j.m, d.address)];
    AroundContent(j, d, image);
    DataNoteMeans(j, d, image);
    NoImage(content);
    ContentMeans(image, j, d);
    FoldConcat(AddBytes, Some(image), comments, group + (note + content));
    FoldConcat(AddBytes, Some(image), group, note + content);
    FoldConcat(AddBytes, Some(image), note, content);
    SameTail(image, ContentImage(j.m, d), d.bytes);
  }

  lemma SameTail<T>(a: seq<T>, b: seq<T>, c: seq<T>)
    ensures a + b == a + c <==> b == c
  {
    assert (a + b)[|a|..] == b && (a + c)[|a|..] == c;
  }
}
