/**
 The binary container of emoji packages: a header, a payload of length-prefixed parts (the manifest, then the images),
 optionally compressed, and a footer with the payload's digest.
 */
module Container {
  import opened Prelude

  type Byte = b: int | 0 <= b < 256
  type Bytes = seq<Byte>

  const MAGIC: Bytes := [0x4D, 0x4D, 0x49, 0x50]
  const FOOTER_MAGIC: Bytes := [0x4D, 0x4D, 0x46, 0x46]
  const VERSION: Byte := 1
  const FOOTER_VERSION: Byte := 1
  const MAX_MANIFEST_SIZE: nat := 200 * 1024 * 1024
  const MAX_PAYLOAD_SIZE: nat := 10 * 1024 * 1024 * 1024
  const HEADER_SIZE: nat := 32
  const FOOTER_SIZE: nat := 40
  const DIGEST_SIZE: nat := 32

  /** The hash, the compressor, and its inverse, which is told how much may come out. */
  datatype Codec = Codec(digest: Bytes -> Bytes, compress: Bytes -> Bytes, decompress: (Bytes, nat) -> Option<Bytes>)
  {
    ghost predicate Sound() {
      && (forall data :: |digest(data)| == DIGEST_SIZE)
      && (forall data, size :: decompress(compress(data), size) == Some(data))
    }
  }

  // ----- numbers

  function Pow(width: nat): nat {
    if width == 0 then 1 else 256 * Pow(width - 1)
  }

  /** `n` in `width` bytes, the most significant first. */
  function BigEndian(n: nat, width: nat): (r: Bytes)
    ensures |r| == width
  {
    if width == 0 then [] else BigEndian(n / 256, width - 1) + [n % 256]
  }

  function Value(bytes: Bytes): nat {
    if bytes == [] then 0 else 256 * Value(bytes[..|bytes| - 1]) + bytes[|bytes| - 1]
  }

  lemma {:induction false} ValueBigEndian(n: nat, width: nat)
    requires n < Pow(width)
    ensures Value(BigEndian(n, width)) == n
  {
    if width > 0 {
      ValueBigEndian(n / 256, width - 1);
      assert BigEndian(n, width)[..width - 1] == BigEndian(n / 256, width - 1);
    }
  }

  lemma Powers()
    ensures Pow(4) == 0x1_0000_0000 && Pow(8) == 0x1_0000_0000_0000_0000
  {
    assert Pow(2) == 0x1_0000 && Pow(3) == 0x100_0000;
    assert Pow(5) == 0x100_0000_0000 && Pow(6) == 0x1_0000_0000_0000;
  }

  // ----- what a package is

  function Frame(data: Bytes): Bytes {
    BigEndian(|data|, 4) + data
  }

  function Frames(images: seq<Bytes>): Bytes {
    if images == [] then [] else Frames(images[..|images| - 1]) + Frame(images[|images| - 1])
  }

  function Payload(manifest: Bytes, images: seq<Bytes>): Bytes {
    Frame(manifest) + Frames(images)
  }

  function Header(compressed: bool, payloadSize: nat, manifestSize: nat): (r: Bytes)
    ensures |r| == HEADER_SIZE
  {
    MAGIC + [VERSION, if compressed then 1 else 0, 0, 0] + BigEndian(payloadSize, 8) + BigEndian(manifestSize, 8)
    + [0, 0, 0, 0, 0, 0, 0, 0]
  }

  function Footer(digest: Bytes): (r: Bytes)
    ensures |r| == |digest| + 8
  {
    FOOTER_MAGIC + digest + [FOOTER_VERSION, 0, 0, 0]
  }

  function Package(manifest: Bytes, images: seq<Bytes>, compressed: bool, codec: Codec): Bytes {
    var payload := Payload(manifest, images);
    Header(compressed, |payload|, |manifest|) + (if compressed then codec.compress(payload) else payload)
    + Footer(codec.digest(payload))
  }

  /** Every length fits the bytes it is written in. */
  predicate Fits(manifest: Bytes, images: seq<Bytes>) {
    && |manifest| < 0x1_0000_0000 && (forall k :: 0 <= k < |images| ==> |images[k]| < 0x1_0000_0000)
    && |Payload(manifest, images)| < 0x1_0000_0000_0000_0000
  }

  // ----- writing

  /** Packing a number fails when it does not fit. */
  function Packed(n: nat, width: nat): Option<Bytes> {
    if n < Pow(width) then Some(BigEndian(n, width)) else None
  }

  method PayloadSize(manifest: Bytes, images: seq<Bytes>) returns (size: nat)
    ensures size == |Payload(manifest, images)|
  {
    size := 4 + |manifest|;
    for n := 0 to |images|
      invariant size == |Payload(manifest, images[..n])|
    {
      assert images[..n + 1][..n] == images[..n];
      size := size + 4 + |images[n]|;
    }
    assert images[..|images|] == images;
  }

  /** What is written before a length that does not fit four bytes: the parts before it. */
  ghost predicate PartsBefore(written: Bytes, manifest: Bytes, images: seq<Bytes>) {
    if |manifest| >= 0x1_0000_0000 then written == []
    else exists k: nat :: StopsAt(written, manifest, images, k)
  }

  ghost predicate StopsAt(written: Bytes, manifest: Bytes, images: seq<Bytes>, k: nat) {
    && k < |images| && |images[k]| >= 0x1_0000_0000 && (forall j :: 0 <= j < k ==> |images[j]| < 0x1_0000_0000)
    && written == Payload(manifest, images[..k])
  }

  /** The framing loop: what is written to the file, directly or through the compressor, is also what is hashed. */
  method WriteFrames(manifest: Bytes, images: seq<Bytes>) returns (ok: bool, written: Bytes)
    ensures ok == (|manifest| < 0x1_0000_0000 && forall k :: 0 <= k < |images| ==> |images[k]| < 0x1_0000_0000)
    ensures if ok then written == Payload(manifest, images) else PartsBefore(written, manifest, images)
  {
    Powers();
    written := [];
    var size := Packed(|manifest|, 4);
    if size == None {
      return false, [];
    }
    written := size.value + manifest;
    for n := 0 to |images|
      invariant written == Payload(manifest, images[..n])
      invariant forall k :: 0 <= k < n ==> |images[k]| < 0x1_0000_0000
    {
      assert images[..n + 1][..n] == images[..n];
      size := Packed(|images[n]|, 4);
      if size == None {
        assert StopsAt(written, manifest, images, n);
        return false, written;
      }
      written := written + size.value;
      written := written + images[n];
      assert written == Frame(manifest) + (Frames(images[..n]) + Frame(images[n]));
    }
    assert images[..|images|] == images;
    ok := true;
  }

  /** What a failed attempt leaves: nothing when the sizes do not fit the header, or else the header and the parts
      before the one whose length does not fit. */
  ghost predicate Left(file: Bytes, manifest: Bytes, images: seq<Bytes>, compressed: bool, codec: Codec) {
    var size := |Payload(manifest, images)|;
    if size >= 0x1_0000_0000_0000_0000 || |manifest| >= 0x1_0000_0000_0000_0000 then file == []
    else exists written ::
      && PartsBefore(written, manifest, images)
      && file == Header(compressed, size, |manifest|) + (if compressed then codec.compress(written) else written)
  }

  method WritePackage(manifest: Bytes, images: seq<Bytes>, payloadSize: nat, compressed: bool, codec: Codec)
    returns (ok: bool, file: Bytes)
    requires payloadSize == |Payload(manifest, images)|
    ensures ok == Fits(manifest, images)
    ensures if ok then file == Package(manifest, images, compressed, codec)
            else Left(file, manifest, images, compressed, codec)
  {
    Powers();
    hide Payload, BigEndian, Pow;
    var payloadBytes, manifestBytes := Packed(payloadSize, 8), Packed(|manifest|, 8);
    if payloadBytes == None || manifestBytes == None {
      return false, [];
    }
    var header := MAGIC;
    header := header + [VERSION];
    header := header + [if compressed then 1 else 0];
    header := header + [0, 0];
    header := header + payloadBytes.value;
    header := header + manifestBytes.value;
    header := header + [0, 0, 0, 0, 0, 0, 0, 0];
    assert header == Header(compressed, payloadSize, |manifest|);
    var written;
    ok, written := WriteFrames(manifest, images);
    file := header + (if compressed then codec.compress(written) else written);
    if !ok {
      return;
    }
    file := file + Footer(codec.digest(written));
  }

  // ----- reading

  /** A stream of bytes and a position in it. */
  class ByteStream {
    const data: Bytes
    var position: nat

    ghost predicate Valid()
      reads this
    {
      position <= |data|
    }

    constructor (data: Bytes)
      ensures Valid() && this.data == data && position == 0
    {
      this.data := data;
      position := 0;
    }

    /** The next `n` bytes, or what is left if there are fewer. */
    method Read(n: nat) returns (r: Bytes)
      requires Valid()
      modifies this
      ensures Valid() && position == After(data, old(position), n)
      ensures r == data[old(position)..position]
    {
      var end := if position + n <= |data| then position + n else |data|;
      r := data[position..end];
      position := end;
    }
  }

  function After(data: Bytes, position: nat, n: nat): (r: nat)
    requires position <= |data|
    ensures position <= r <= |data|
  {
    if position + n <= |data| then position + n else |data|
  }

  /** What lies between header and footer; a file too short for both is read to its end. */
  function Body(file: Bytes): Bytes
    requires |file| >= FOOTER_SIZE
  {
    if |file| >= HEADER_SIZE + FOOTER_SIZE then file[HEADER_SIZE..|file| - FOOTER_SIZE] else file[HEADER_SIZE..]
  }

  /** The payload of a package, if everything about the package is accepted. */
  function Opened(file: Bytes, verify: bool, codec: Codec): Option<Bytes> {
    if |file| < FOOTER_SIZE || file[..4] != MAGIC then None
    else
      var payloadSize, manifestSize := Value(file[8..16]), Value(file[16..24]);
      var footer := file[|file| - FOOTER_SIZE..];
      if manifestSize > MAX_MANIFEST_SIZE || payloadSize > MAX_PAYLOAD_SIZE || footer[..4] != FOOTER_MAGIC then None
      else
        var payload := if file[5] % 2 == 1 then codec.decompress(Body(file), payloadSize) else Some(Body(file));
        if payload == None || (verify && codec.digest(payload.value) != footer[4..36]) then None else payload
  }

  /** The next part of a payload and where the one after it starts; None when it is cut short. */
  function NextFrame(data: Bytes, position: nat): (r: (Option<Bytes>, nat))
    requires position <= |data|
    ensures position <= r.1 <= |data|
  {
    var start := After(data, position, 4);
    if start - position != 4 then (None, start)
    else
      var size := Value(data[position..start]);
      var end := After(data, start, size);
      (if end - start == size then Some(data[start..end]) else None, end)
  }

  function FramesFrom(data: Bytes, position: nat, n: nat): (r: seq<Option<Bytes>>)
    requires position <= |data|
    ensures |r| == n
    decreases n
  {
    if n == 0 then []
    else
      var next := NextFrame(data, position);
      [next.0] + FramesFrom(data, next.1, n - 1)
  }

  /** An item of the manifest, with the digest it promises. */
  datatype Item = Item(digest: Option<Bytes>)

  datatype Outcome = Imported | Skipped | Failed

  /** What storing an image comes to, after the frames read before it, is for the database to say. */
  type Store = (seq<Option<Bytes>>, Bytes) -> Outcome

  function Judge(frame: Option<Bytes>, item: Item, earlier: seq<Option<Bytes>>, verify: bool, codec: Codec,
                 store: Store): Outcome
  {
    if frame == None then Failed
    else if verify && item.digest.Some? && item.digest.value != [] && codec.digest(frame.value) != item.digest.value
      then Failed
    else store(earlier, frame.value)
  }

  function Count(outcomes: seq<Outcome>, kind: Outcome): nat {
    if outcomes == [] then 0
    else Count(outcomes[..|outcomes| - 1], kind) + (if outcomes[|outcomes| - 1] == kind then 1 else 0)
  }

  /** The `k`-th item is judged by the `k`-th frame, whatever became of the items before. */
  ghost predicate Judged(outcomes: seq<Outcome>, frames: seq<Option<Bytes>>, items: seq<Item>, verify: bool,
                         codec: Codec,
                         store: Store)
  {
    && |outcomes| == |items| == |frames|
    && forall k :: 0 <= k < |items| ==> outcomes[k] == Judge(frames[k], items[k], frames[..k], verify, codec, store)
  }

  /** The import loop. */
  method ImportItems(stream: ByteStream, items: seq<Item>, verify: bool, codec: Codec, store: Store)
    returns (imported: nat, skipped: nat, errors: nat, outcomes: seq<Outcome>)
    requires stream.Valid()
    modifies stream
    ensures Judged(outcomes, FramesFrom(stream.data, old(stream.position), |items|), items, verify, codec, store)
    ensures imported == Count(outcomes, Imported) && skipped == Count(outcomes, Skipped)
            && errors == Count(outcomes, Failed)
    ensures imported + skipped + errors == |items|
  {
    hide NextFrame, Judge;
    imported, skipped, errors, outcomes := 0, 0, 0, [];
    var earlier: seq<Option<Bytes>> := [];
    ghost var frames := FramesFrom(stream.data, stream.position, |items|);
    for n := 0 to |items|
      invariant stream.Valid() && |outcomes| == n && earlier == frames[..n]
      invariant frames[n..] == FramesFrom(stream.data, stream.position, |items| - n)
      invariant Judged(outcomes, frames[..n], items[..n], verify, codec, store)
      invariant imported == Count(outcomes, Imported) && skipped == Count(outcomes, Skipped)
                && errors == Count(outcomes, Failed)
    {
      var frame := ReadFrame(stream);
      assert frames[n] == frames[n..][0] && frames[n + 1..] == frames[n..][1..];
      var outcome := Judge(frame, items[n], earlier, verify, codec, store);
      match outcome {
        case Imported => imported := imported + 1;
        case Skipped => skipped := skipped + 1;
        case Failed => errors := errors + 1;
      }
      JudgedNext(outcomes, outcome, frames, items, n, verify, codec, store);
      outcomes := outcomes + [outcome];
      earlier := earlier + [frame];
    }
    assert frames[..|items|] == frames && items[..|items|] == items;
    CountAll(outcomes);
  }

  lemma JudgedNext(outcomes: seq<Outcome>, outcome: Outcome, frames: seq<Option<Bytes>>, items: seq<Item>, n: nat,
                   verify: bool,
                   codec: Codec, store: Store)
    requires n < |items| == |frames| && Judged(outcomes, frames[..n], items[..n], verify, codec, store)
    requires outcome == Judge(frames[n], items[n], frames[..n], verify, codec, store)
    ensures Judged(outcomes + [outcome], frames[..n + 1], items[..n + 1], verify, codec, store)
    ensures forall kind :: Count(outcomes + [outcome], kind) == Count(outcomes, kind) + if outcome == kind then 1 else 0
  {
    hide Judge;
    assert (outcomes + [outcome])[..n] == outcomes;
    forall k | 0 <= k < n ensures frames[..n + 1][..k] == frames[..n][..k] {
    }
    assert frames[..n + 1][..n] == frames[..n];
  }

  method ReadFrame(stream: ByteStream) returns (r: Option<Bytes>)
    requires stream.Valid()
    modifies stream
    ensures stream.Valid()
    ensures var next := NextFrame(stream.data, old(stream.position)); r == next.0 && stream.position == next.1
  {
    var sizeBytes := stream.Read(4);
    if |sizeBytes| != 4 {
      return None;
    }
    var size := Value(sizeBytes);
    var data := stream.Read(size);
    r := if |data| == size then Some(data) else None;
  }

  // ----- laws

  lemma {:induction false} CountAll(outcomes: seq<Outcome>)
    ensures Count(outcomes, Imported) + Count(outcomes, Skipped) + Count(outcomes, Failed) == |outcomes|
  {
    if outcomes != [] {
      CountAll(outcomes[..|outcomes| - 1]);
    }
  }

  lemma FrameReads(before: Bytes, data: Bytes, after: Bytes)
    requires |data| < 0x1_0000_0000
    ensures var all := before + Frame(data) + after;
            |all| == |before| + 4 + |data| + |after| && NextFrame(all, |before|) == (Some(data), |before| + 4 + |data|)
  {
    Powers();
    ValueBigEndian(|data|, 4);
    hide BigEndian, Value, Pow;
    var all, size := before + Frame(data) + after, BigEndian(|data|, 4);
    assert all == before + size + data + after;
    assert all[|before|..|before| + 4] == size;
    assert all[|before| + 4..|before| + 4 + |data|] == data;
  }

  lemma FramesSnoc(images: seq<Bytes>, image: Bytes)
    ensures Frames(images + [image]) == Frames(images) + Frame(image)
  {
    hide Frame;
    assert (images + [image])[..|images|] == images;
  }

  lemma {:induction false} FramesSplit(images: seq<Bytes>)
    requires images != []
    ensures Frames(images) == Frame(images[0]) + Frames(images[1..])
  {
    hide Frames, Frame;
    var init, last := images[..|images| - 1], images[|images| - 1];
    assert images == init + [last];
    FramesSnoc(init, last);
    NoFrames();
    if |images| == 1 {
      assert init == [] && images[1..] == [];
    } else {
      FramesSplit(init);
      FramesSnoc(init[1..], last);
      assert images[1..] == init[1..] + [last];
    }
  }

  lemma NoFrames()
    ensures Frames([]) == []
  {
  }

  /** Each image is read back as it was written, whatever came of the ones before. */
  lemma {:induction false} FramesRead(before: Bytes, images: seq<Bytes>)
    requires forall k :: 0 <= k < |images| ==> |images[k]| < 0x1_0000_0000
    ensures var frames := FramesFrom(before + Frames(images), |before|, |images|);
            forall k :: 0 <= k < |images| ==> frames[k] == Some(images[k])
    decreases |images|
  {
    if images != [] {
      var first, rest := images[0], images[1..];
      FramesSplit(images);
      FrameReads(before, first, Frames(rest));
      assert before + Frames(images) == before + Frame(first) + Frames(rest);
      FramesRead(before + Frame(first), rest);
      var frames := FramesFrom(before + Frames(images), |before|, |images|);
      assert frames[1..] == FramesFrom(before + Frame(first) + Frames(rest), |before + Frame(first)|, |rest|);
      forall k | 0 <= k < |images| ensures frames[k] == Some(images[k]) {
        if k > 0 {
          assert frames[k] == frames[1..][k - 1] && images[k] == rest[k - 1];
        }
      }
    }
  }

  /** Header, body and footer are found where they were written. */
  lemma PackageParts(manifest: Bytes, images: seq<Bytes>, compressed: bool, codec: Codec)
    requires codec.Sound() && Fits(manifest, images)
    ensures var payload, file := Payload(manifest, images), Package(manifest, images, compressed, codec);
            && |file| >= HEADER_SIZE + FOOTER_SIZE
            && file[..8] == [0x4D, 0x4D, 0x49, 0x50, 1, if compressed then 1 else 0, 0, 0]
            && Value(file[8..16]) == |payload| && Value(file[16..24]) == |manifest|
            && file[24..32] == [0, 0, 0, 0, 0, 0, 0, 0]
            && Body(file) == (if compressed then codec.compress(payload) else payload)
            && file[|file| - 40..] == [0x4D, 0x4D, 0x46, 0x46] + codec.digest(payload) + [1, 0, 0, 0]
            && (!compressed ==> |file| == HEADER_SIZE + |payload| + FOOTER_SIZE)
  {
    Powers();
    var payload := Payload(manifest, images);
    hide Payload, Pow, BigEndian, Value;
    var header, footer := Header(compressed, |payload|, |manifest|), Footer(codec.digest(payload));
    var body := if compressed then codec.compress(payload) else payload;
    var file := Package(manifest, images, compressed, codec);
    assert file == header + body + footer;
    ValueBigEndian(|payload|, 8);
    ValueBigEndian(|manifest|, 8);
    assert file[8..16] == header[8..16] == BigEndian(|payload|, 8);
    assert file[16..24] == header[16..24] == BigEndian(|manifest|, 8);
    assert file[..8] == header[..8] == [0x4D, 0x4D, 0x49, 0x50, 1, if compressed then 1 else 0, 0, 0];
    assert file[24..32] == header[24..32] == [0, 0, 0, 0, 0, 0, 0, 0];
    assert file[|file| - 40..] == footer;
  }

  lemma FooterParts(digest: Bytes)
    requires |digest| == DIGEST_SIZE
    ensures Footer(digest)[..4] == FOOTER_MAGIC && Footer(digest)[4..36] == digest
  {
  }

  /** Unpacking what was packed: it is accepted exactly when manifest and payload are within the limits, and then the
      manifest and every image come back as they were. */
  lemma RoundTrip(manifest: Bytes, images: seq<Bytes>, compressed: bool, verify: bool, codec: Codec)
    requires codec.Sound() && Fits(manifest, images)
    ensures var payload := Payload(manifest, images);
            var read := Opened(Package(manifest, images, compressed, codec), verify, codec);
            && (read.Some? <==> |manifest| <= MAX_MANIFEST_SIZE && |payload| <= MAX_PAYLOAD_SIZE)
            && (read.Some? ==> read == Some(payload))
            && NextFrame(payload, 0) == (Some(manifest), 4 + |manifest|)
            && forall k :: 0 <= k < |images| ==> FramesFrom(payload, 4 + |manifest|, |images|)[k] == Some(images[k])
  {
    hide Frames, BigEndian, Value, NextFrame, FramesFrom, Package, Body;
    var payload := Payload(manifest, images);
    FrameReads([], manifest, Frames(images));
    assert [] + Frame(manifest) + Frames(images) == payload;
    FramesRead(Frame(manifest), images);
    hide Payload, Frame, Footer;
    PackageParts(manifest, images, compressed, codec);
    FooterParts(codec.digest(payload));
  }

  /** With the digests the packer records, only the database can refuse an image; it is given each item's own. */
  lemma {:induction false} PackedImagesImport(manifest: Bytes, images: seq<Bytes>, items: seq<Item>,
                                              outcomes: seq<Outcome>,
                                              verify: bool, codec: Codec, store: Store)
    requires codec.Sound() && Fits(manifest, images) && |items| == |images|
    requires forall k :: 0 <= k < |images| ==> items[k].digest == Some(codec.digest(images[k]))
    requires Judged(outcomes, FramesFrom(Payload(manifest, images), 4 + |manifest|, |items|), items, verify, codec,
                    store)
    ensures forall k :: 0 <= k < |images| ==> outcomes[k] == store(AsRead(images[..k]), images[k])
  {
    hide Payload, FramesFrom, NextFrame, Package;
    RoundTrip(manifest, images, false, verify, codec);
    var frames := FramesFrom(Payload(manifest, images), 4 + |manifest|, |items|);
    forall k | 0 <= k < |images| ensures outcomes[k] == store(AsRead(images[..k]), images[k]) {
      assert frames[..k] == AsRead(images[..k]);
    }
  }

  /** The images as frames. */
  function AsRead(images: seq<Bytes>): (r: seq<Option<Bytes>>)
    ensures |r| == |images| && forall k :: 0 <= k < |images| ==> r[k] == Some(images[k])
  {
    seq(|images|, k requires 0 <= k < |images| => Some(images[k]))
  }

  /** Unpacking a whole file. */
  method ImportPackage(file: Bytes, verify: bool, codec: Codec, unpack: Bytes -> Option<seq<Item>>, store: Store)
    returns (ok: bool, outcomes: seq<Outcome>)
    ensures var payload := Opened(file, verify, codec);
            if payload == None || |payload.value| < 4 then !ok && outcomes == []
            else
              var start := After(payload.value, 4, Value(payload.value[..4]));
              var items := unpack(payload.value[4..start]);
              if items == None then !ok && outcomes == []
              else
                && Judged(outcomes, FramesFrom(payload.value, start, |items.value|), items.value, verify, codec, store)
                && (ok <==> Count(outcomes, Failed) == 0)
  {
    var payload := Opened(file, verify, codec);
    if payload == None {
      return false, [];
    }
    var stream := new ByteStream(payload.value);
    var sizeBytes := stream.Read(4);
    if |sizeBytes| != 4 {
      return false, [];
    }
    var manifest := stream.Read(Value(sizeBytes));
    var items := unpack(manifest);
    if items == None {
      return false, [];
    }
    var imported, skipped, errors;
    imported, skipped, errors, outcomes := ImportItems(stream, items.value, verify, codec, store);
    ok := errors == 0;
  }
}
