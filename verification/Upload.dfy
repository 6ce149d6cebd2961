/** Receiving an upload chunk by chunk, against handling the file as a whole. */
module Upload {
  import opened Machine
  import opened Text

  const SNIFF_BYTES: nat := 8192

  // What the next read of the field gives, and whether a chunk that is read can be written.
  datatype Event = Data(bytes: seq<Byte>, written: bool) | Broken(tooLarge: bool)

  datatype ReceiveError = TooLarge | Invalid | Io

  datatype Received = Received(size: nat, digest: string, head: seq<Byte>)

  datatype Result = Accepted(received: Received) | Failed(error: ReceiveError)

  function SaturatingAdd(a: nat, b: nat): (r: nat)
    ensures r <= U64_MAX
  {
    if a + b <= U64_MAX then a + b else U64_MAX
  }

  function Payload(e: Event): seq<Byte> {
    if e.Data? then e.bytes else []
  }

  // The bytes of all chunks in a row.
  function Content(events: seq<Event>): seq<Byte> {
    if events == [] then [] else Content(events[..|events| - 1]) + Payload(events[|events| - 1])
  }

  // Every chunk is read and written.
  ghost predicate AllArrive(events: seq<Event>) {
    forall e <- events :: e.Data? && e.written
  }

  // The file as a whole: what is known of it, if it is within the limit.
  function Whole(content: seq<Byte>, max: nat, hash: seq<Byte> -> string): Result {
    var size := Min(|content|, U64_MAX);
    if size > max then Failed(TooLarge)
    else Accepted(Received(size, hash(content), content[..Min(SNIFF_BYTES, |content|)]))
  }

  // The first thing to go wrong, if anything does, when `size` bytes have been counted before.
  function FirstError(events: seq<Event>, max: nat, size: nat): Option<ReceiveError>
    decreases |events|
  {
    if events == [] then None else
    match events[0]
    case Broken(tooLarge) => Some(if tooLarge then TooLarge else Invalid)
    case Data(bytes, written) =>
      var more := SaturatingAdd(size, |bytes|);
      if more > max then Some(TooLarge)
      else if !written then Some(Io)
      else FirstError(events[1..], max, more)
  }

  /** Nothing goes wrong exactly when every chunk arrives and their total is within the limit. */
  lemma {:induction false} NoErrorIff(events: seq<Event>, max: nat, size: nat)
    requires size <= U64_MAX && size <= max
    ensures FirstError(events, max, size) == None
            <==> AllArrive(events) && Min(size + |Content(events)|, U64_MAX) <= max
    decreases |events|
  {
    if events != [] {
      ContentCons(events);
      AllArriveCons(events);
      hide Content, AllArrive;
      var e, rest := events[0], events[1..];
      if e.Data? && e.written && SaturatingAdd(size, |e.bytes|) <= max {
        NoErrorIff(rest, max, SaturatingAdd(size, |e.bytes|));
      }
    }
  }

  lemma AllArriveCons(events: seq<Event>)
    requires events != []
    ensures AllArrive(events) <==> events[0].Data? && events[0].written && AllArrive(events[1..])
  {
    assert events == [events[0]] + events[1..];
  }

  lemma {:induction false} ContentCons(events: seq<Event>)
    requires events != []
    ensures Content(events) == Payload(events[0]) + Content(events[1..])
    decreases |events|
  {
    hide Payload;
    var n := |events| - 1;
    if n == 0 {
      assert events[..0] == [] && events[1..] == [];
    } else {
      var init, rest := events[..n], events[1..];
      ContentCons(init);
      assert init[1..] == rest[..n - 1] && rest[n - 1] == events[n];
      assert Content(rest) == Content(rest[..n - 1]) + Payload(events[n]);
      assert Content(events) == Payload(events[0]) + Content(rest[..n - 1]) + Payload(events[n]);
    }
  }

  // Too large means over the limit, or the framework said so, whatever comes after.
  lemma {:induction false} TooLargeIff(events: seq<Event>, max: nat, size: nat)
    requires AllArrive(events) && size <= U64_MAX && size <= max
    ensures FirstError(events, max, size) == Some(TooLarge) <==> Min(size + |Content(events)|, U64_MAX) > max
    decreases |events|
  {
    if events != [] {
      ContentCons(events);
      var e, rest := events[0], events[1..];
      assert e in events && forall x <- rest :: x in events;
      if SaturatingAdd(size, |e.bytes|) <= max {
        TooLargeIff(rest, max, SaturatingAdd(size, |e.bytes|));
      }
    }
  }

  function SpoolResult(opens: bool, events: seq<Event>, syncs: bool, max: nat, hash: seq<Byte> -> string): Result {
    if !opens then Failed(Io) else
    match FirstError(events, max, 0)
    case Some(error) => Failed(error)
    case None => if !syncs then Failed(Io) else Whole(Content(events), max, hash)
  }

  lemma HeadGrows(hashed: seq<Byte>, chunk: seq<Byte>)
    ensures var head := hashed[..Min(SNIFF_BYTES, |hashed|)];
            (hashed + chunk)[..Min(SNIFF_BYTES, |hashed + chunk|)]
            == if |head| < SNIFF_BYTES then head + chunk[..Min(SNIFF_BYTES - |head|, |chunk|)] else head
  {
  }

  lemma ContentSnoc(events: seq<Event>, i: nat)
    requires i < |events|
    ensures Content(events[..i + 1]) == Content(events[..i]) + Payload(events[i])
    ensures AllArrive(events[..i]) && events[i].Data? && events[i].written ==> AllArrive(events[..i + 1])
  {
    assert events[..i + 1][..i] == events[..i];
  }

  /** The loop over the chunks. `file` is what is left on disk: the whole content of an accepted
    * upload, and nothing of a failed one.
    */
  method SpoolField(opens: bool, events: seq<Event>, syncs: bool, max: nat, hash: seq<Byte> -> string)
    returns (r: Result, file: Option<seq<Byte>>)
    ensures r == SpoolResult(opens, events, syncs, max, hash)
    ensures file == if r.Accepted? then Some(Content(events)) else None
  {
    file := None;
    if !opens {
      return Failed(Io), None;
    }
    var written: seq<Byte>, hashed: seq<Byte>, head: seq<Byte>, size := [], [], [], 0;
    assert events[..0] == [] && events[0..] == events;
    for i := 0 to |events|
      invariant AllArrive(events[..i])
      invariant written == hashed == Content(events[..i])
      invariant head == hashed[..Min(SNIFF_BYTES, |hashed|)]
      invariant size == Min(|hashed|, U64_MAX)
      invariant i > 0 ==> size <= max
      invariant FirstError(events, max, 0) == FirstError(events[i..], max, size)
    {
      hide Content, AllArrive;
      assert events[i..][0] == events[i] && events[i..][1..] == events[i + 1..];
      ContentSnoc(events, i);
      match events[i] {
        case Broken(tooLarge) =>
          return Failed(if tooLarge then TooLarge else Invalid), None;
        case Data(chunk, ok) =>
          size := SaturatingAdd(size, |chunk|);
          if size > max {
            return Failed(TooLarge), None;
          }
          if |head| < SNIFF_BYTES {
            var take := Min(SNIFF_BYTES - |head|, |chunk|);
            head := head + chunk[..take];
          }
          HeadGrows(hashed, chunk);
          hashed := hashed + chunk;
          if !ok {
            return Failed(Io), None;
          }
          written := written + chunk;
      }
    }
    assert events[..|events|] == events && events[|events|..] == [];
    if !syncs {
      return Failed(Io), None;
    }
    r, file := Accepted(Received(size, hash(hashed), head)), Some(written);
    if |events| > 0 { NoErrorIff(events, max, 0); }
  }

  /** Absent failures, the chunks are as good as the whole: the same size, the same bytes hashed,
    * the same first `SNIFF_BYTES`, and refused just when the whole is over the limit.
    */
  lemma SpoolIsWhole(events: seq<Event>, max: nat, hash: seq<Byte> -> string)
    requires AllArrive(events)
    ensures SpoolResult(true, events, true, max, hash) == Whole(Content(events), max, hash)
  {
    NoErrorIff(events, max, 0);
    TooLargeIff(events, max, 0);
    OnlyTooLarge(events, max, 0);
  }

  lemma {:induction false} OnlyTooLarge(events: seq<Event>, max: nat, size: nat)
    requires AllArrive(events)
    ensures FirstError(events, max, size) in {None, Some(TooLarge)}
    decreases |events|
  {
    if events != [] {
      assert events[0] in events && forall x <- events[1..] :: x in events;
      OnlyTooLarge(events[1..], max, SaturatingAdd(size, |events[0].bytes|));
    }
  }

  /** So the way the content was cut into chunks does not show. */
  lemma ChunkingDoesNotShow(a: seq<Event>, b: seq<Event>, max: nat, hash: seq<Byte> -> string)
    requires AllArrive(a) && AllArrive(b) && Content(a) == Content(b)
    ensures SpoolResult(true, a, true, max, hash) == SpoolResult(true, b, true, max, hash)
  {
    SpoolIsWhole(a, max, hash);
    SpoolIsWhole(b, max, hash);
  }

  /** Below the saturation of the counter, the limit is exact. */
  lemma LimitIsExact(events: seq<Event>, max: nat, hash: seq<Byte> -> string)
    requires AllArrive(events) && max < 0xFFFF_FFFF_FFFF_FFFF
    ensures SpoolResult(true, events, true, max, hash) == Failed(TooLarge) <==> |Content(events)| > max
    ensures SpoolResult(true, events, true, max, hash).Accepted? <==> |Content(events)| <= max
  {
    SpoolIsWhole(events, max, hash);
  }

  /** At a limit of the largest number there is none, and the size can fall short. */
  lemma NoLimitAtSaturation(events: seq<Event>, hash: seq<Byte> -> string)
    requires AllArrive(events)
    ensures var r := SpoolResult(true, events, true, 0xFFFF_FFFF_FFFF_FFFF, hash);
            r.Accepted? && (r.received.size == |Content(events)| <==> |Content(events)| <= 0xFFFF_FFFF_FFFF_FFFF)
  {
    SpoolIsWhole(events, U64_MAX, hash);
  }

  /** An accepted upload is known by the hash of all its bytes and by its first 8192 bytes. */
  lemma AcceptedIsKnown(events: seq<Event>, max: nat, hash: seq<Byte> -> string)
    requires AllArrive(events) && SpoolResult(true, events, true, max, hash).Accepted?
    ensures var (received, content) := (SpoolResult(true, events, true, max, hash).received, Content(events));
            && received.digest == hash(content)
            && received.head == (if |content| <= 8192 then content else content[..8192])
            && (|content| <= 0xFFFF_FFFF_FFFF_FFFF ==> received.size == |content|)
  {
    SpoolIsWhole(events, max, hash);
  }

  /** An upload fails as its first bad event says, if what came before is within the limit; it also
    * fails if its file cannot be opened, or written out at the end.
    */
  lemma {:induction false} SpoolFailsAs(
    events: seq<Event>, k: nat, syncs: bool, max: nat, hash: seq<Byte> -> string)
    requires k < |events| && AllArrive(events[..k]) && |Content(events[..k])| <= max < 0xFFFF_FFFF_FFFF_FFFF
    ensures var (e, r) := (events[k], SpoolResult(true, events, syncs, max, hash));
            var total := |Content(events[..k])| + |Payload(e)|;
            && (e == Broken(true) ==> r == Failed(TooLarge))
            && (e == Broken(false) ==> r == Failed(Invalid))
            && (e.Data? && total > max ==> r == Failed(TooLarge))
            && (e.Data? && total <= max && !e.written ==> r == Failed(Io))
    ensures SpoolResult(false, events, syncs, max, hash) == Failed(Io)
  {
    hide Content, AllArrive;
    FirstErrorAfter(events, k, max, 0);
    assert events[k..][0] == events[k];
  }

  lemma SpoolNeedsSync(events: seq<Event>, max: nat, hash: seq<Byte> -> string)
    requires AllArrive(events) && |Content(events)| <= max < 0xFFFF_FFFF_FFFF_FFFF
    ensures SpoolResult(true, events, false, max, hash) == Failed(Io)
  {
    NoErrorIff(events, max, 0);
  }

  // Chunks that arrive within the limit are counted.
  lemma {:induction false} FirstErrorAfter(events: seq<Event>, k: nat, max: nat, size: nat)
    requires k <= |events| && AllArrive(events[..k]) && max < 0xFFFF_FFFF_FFFF_FFFF
    requires size + |Content(events[..k])| <= max
    ensures FirstError(events, max, size) == FirstError(events[k..], max, size + |Content(events[..k])|)
    decreases k
  {
    hide Content, AllArrive, FirstError, Payload;
    var some := events[..k];
    if k == 0 {
      assert some == [] && events[0..] == events;
      NoContent();
    } else {
      ContentCons(some);
      AllArriveCons(some);
      assert some[0] == events[0] && some[1..] == events[1..][..k - 1] && events[k..] == events[1..][k - 1..];
      FirstErrorStep(events, max, size);
      FirstErrorAfter(events[1..], k - 1, max, size + |Payload(events[0])|);
    }
  }

  lemma NoContent()
    ensures Content([]) == []
  {
  }

  lemma FirstErrorStep(events: seq<Event>, max: nat, size: nat)
    requires events != [] && events[0].Data? && events[0].written && max < 0xFFFF_FFFF_FFFF_FFFF
    requires size + |Payload(events[0])| <= max
    ensures FirstError(events, max, size) == FirstError(events[1..], max, size + |Payload(events[0])|)
  {
  }
}
