/**
 * The splitting rule of `send_message_to_telegram`: which payloads are posted, in
 * which order, for one message sent with or without a chart photo. The HTTP posts
 * themselves, the photo file and the success flag are not modelled; a message is
 * represented by the sequence of payloads that would be posted.
 */
module Notifier {
  import opened Market

  /** A photo's caption keeps at most this many characters. */
  const CAPTION_LIMIT: nat := 1024

  /** A text message longer than this is cut into pieces of this size. */
  const CHUNK_SIZE: nat := 4000

  /** One post: a photo with its caption (`sendPhoto`) or a text message (`sendMessage`). */
  datatype Payload = Photo(caption: string) | Text(text: string)

  function Body(p: Payload): string
  {
    match p
    case Photo(caption) => caption
    case Text(text) => text
  }

  /** What the chat shows, read in posting order: every payload's text, concatenated. */
  function Transcript(ps: seq<Payload>): string
  {
    if ps == [] then [] else Body(ps[0]) + Transcript(ps[1..])
  }

  /** Every payload respects the transport's limits. */
  predicate WithinLimits(ps: seq<Payload>)
  {
    forall p :: p in ps ==>
      match p
      case Photo(caption) => |caption| <= CAPTION_LIMIT
      case Text(text) => |text| <= CHUNK_SIZE
  }

  /** The number of starts in `range(0, n, CHUNK_SIZE)`. */
  function ChunkCount(n: nat): nat
  {
    (n + CHUNK_SIZE - 1) / CHUNK_SIZE
  }

  /**
   * The consecutive CHUNK_SIZE-character slices of the message, starting at 0,
   * CHUNK_SIZE, 2 * CHUNK_SIZE, ...; the last one holds what remains.
   */
  function Chunks(message: string): seq<string>
  {
    var n := |message|;
    seq(ChunkCount(n), c requires 0 <= c < ChunkCount(n) =>
      message[c * CHUNK_SIZE .. Min((c + 1) * CHUNK_SIZE, n)])
  }

  function Texts(pieces: seq<string>): seq<Payload>
  {
    seq(|pieces|, c requires 0 <= c < |pieces| => Text(pieces[c]))
  }

  /** The text path: one message as it is, or its chunks when it is longer than CHUNK_SIZE. */
  function TextPayloads(message: string): seq<Payload>
  {
    if |message| > CHUNK_SIZE then Texts(Chunks(message)) else [Text(message)]
  }

  /**
   * The payloads `send_message_to_telegram(message, photo)` posts. With a photo: the
   * photo captioned by the first CAPTION_LIMIT characters, then the rest, if any,
   * through the text path. Without one: the text path.
   */
  function Payloads(message: string, withPhoto: bool): seq<Payload>
  {
    if withPhoto then
      [Photo(message[..Min(|message|, CAPTION_LIMIT)])] +
      (if |message| > CAPTION_LIMIT then TextPayloads(message[CAPTION_LIMIT..]) else [])
    else TextPayloads(message)
  }

  lemma TranscriptCons(p: Payload, ps: seq<Payload>)
    ensures Transcript([p] + ps) == Body(p) + Transcript(ps)
  {
    assert ([p] + ps)[1..] == ps;
  }

  lemma {:induction false} TranscriptAppend(ps: seq<Payload>, qs: seq<Payload>)
    ensures Transcript(ps + qs) == Transcript(ps) + Transcript(qs)
  {
    if ps == [] {
      assert ps + qs == qs;
    } else {
      var p, rest := ps[0], ps[1..];
      assert ps == [p] + rest;
      assert ps + qs == [p] + (rest + qs);
      TranscriptCons(p, rest);
      TranscriptCons(p, rest + qs);
      TranscriptAppend(rest, qs);
      assert Body(p) + (Transcript(rest) + Transcript(qs)) == (Body(p) + Transcript(rest)) + Transcript(qs);
    }
  }

  /** ChunkCount(n) is the ceiling of n / CHUNK_SIZE. */
  lemma ChunkCountIsCeiling(n: nat)
    ensures ChunkCount(n) * CHUNK_SIZE >= n
    ensures n > 0 ==> (ChunkCount(n) - 1) * CHUNK_SIZE < n
  {
  }

  /** A long message's chunks are its first CHUNK_SIZE characters, then the chunks of the rest. */
  lemma ChunksStep(message: string)
    requires |message| > CHUNK_SIZE
    ensures Chunks(message) == [message[..CHUNK_SIZE]] + Chunks(message[CHUNK_SIZE..])
  {
    var n := |message|;
    var rest := message[CHUNK_SIZE..];
    assert ChunkCount(n) == ChunkCount(|rest|) + 1;
    var lhs := Chunks(message);
    var rhs := [message[..CHUNK_SIZE]] + Chunks(rest);
    forall c | 0 <= c < |lhs|
      ensures lhs[c] == rhs[c]
    {
      if c > 0 {
        var lo := (c - 1) * CHUNK_SIZE;
        var hi := Min(c * CHUNK_SIZE, |rest|);
        assert rhs[c] == rest[lo .. hi];
        assert lhs[c] == message[CHUNK_SIZE + lo .. CHUNK_SIZE + hi];
      }
    }
  }

  /** The chunks, read in order, give back the message. */
  lemma {:induction false} ChunksRebuild(message: string)
    ensures Transcript(Texts(Chunks(message))) == message
    decreases |message|
  {
    var n := |message|;
    if n == 0 {
      assert Chunks(message) == [];
    } else if n <= CHUNK_SIZE {
      assert ChunkCount(n) == 1;
      assert Chunks(message) == [message[0 .. n]];
      assert message[0 .. n] == message;
      assert Texts(Chunks(message)) == [Text(message)];
      assert Transcript([Text(message)]) == message + Transcript([]);
    } else {
      var rest := message[CHUNK_SIZE..];
      ChunksStep(message);
      ChunksRebuild(rest);
      var head := Text(message[..CHUNK_SIZE]);
      assert Texts(Chunks(message)) == [head] + Texts(Chunks(rest));
      TranscriptAppend([head], Texts(Chunks(rest)));
      assert Transcript([head]) == message[..CHUNK_SIZE] + Transcript([]);
      assert message == message[..CHUNK_SIZE] + rest;
    }
  }

  /** Every chunk but the last is exactly CHUNK_SIZE long; the last is not empty nor longer. */
  lemma ChunkSizes(message: string)
    ensures forall c :: 0 <= c < |Chunks(message)| ==>
      0 < |Chunks(message)[c]| <= CHUNK_SIZE &&
      (c < |Chunks(message)| - 1 ==> |Chunks(message)[c]| == CHUNK_SIZE)
  {
    var n := |message|;
    forall c | 0 <= c < ChunkCount(n)
      ensures 0 < |Chunks(message)[c]| <= CHUNK_SIZE
      ensures c < ChunkCount(n) - 1 ==> |Chunks(message)[c]| == CHUNK_SIZE
    {
      assert c * CHUNK_SIZE < n;
      if c < ChunkCount(n) - 1 {
        assert (c + 1) * CHUNK_SIZE < n;
      }
    }
  }

  /** A message of at most CHUNK_SIZE characters goes out once, unchanged. */
  lemma ShortTextSentWhole(message: string)
    requires |message| <= CHUNK_SIZE
    ensures Payloads(message, false) == [Text(message)]
  {
  }

  /**
   * A longer message goes out as ceil(n / CHUNK_SIZE) text posts, each within the limit,
   * all but the last exactly CHUNK_SIZE long, and together they spell the message.
   */
  lemma LongTextSplit(message: string)
    requires |message| > CHUNK_SIZE
    ensures var ps := Payloads(message, false);
      |ps| == ChunkCount(|message|) && |ps| >= 2 &&
      (forall c :: 0 <= c < |ps| ==>
        ps[c].Text? && 0 < |ps[c].text| <= CHUNK_SIZE &&
        (c < |ps| - 1 ==> |ps[c].text| == CHUNK_SIZE)) &&
      Transcript(ps) == message
  {
    ChunkSizes(message);
    ChunksRebuild(message);
    ChunkCountIsCeiling(|message|);
  }

  /** The text path always posts something, keeps within the limit and loses nothing. */
  lemma TextPathSound(message: string)
    ensures var ps := TextPayloads(message);
      |ps| >= 1 && WithinLimits(ps) && Transcript(ps) == message &&
      forall p :: p in ps ==> p.Text?
  {
    if |message| > CHUNK_SIZE {
      LongTextSplit(message);
      assert Payloads(message, false) == TextPayloads(message);
    } else {
      assert Transcript([Text(message)]) == message + Transcript([]);
    }
  }

  /**
   * With a photo, the caption is the first min(n, CAPTION_LIMIT) characters; nothing
   * follows a message that fits the caption, and otherwise the rest goes through the
   * text path; caption and follow-ups together spell the message.
   */
  lemma PhotoCaptionSplit(message: string)
    ensures var ps := Payloads(message, true);
      |ps| >= 1 &&
      ps[0] == Photo(message[..Min(|message|, CAPTION_LIMIT)]) &&
      (|message| <= CAPTION_LIMIT ==> ps == [Photo(message)]) &&
      (|message| > CAPTION_LIMIT ==> ps[1..] == Payloads(message[CAPTION_LIMIT..], false)) &&
      Transcript(ps) == message
  {
    var ps := Payloads(message, true);
    var caption := message[..Min(|message|, CAPTION_LIMIT)];
    if |message| <= CAPTION_LIMIT {
      assert caption == message;
      assert Transcript([Photo(message)]) == message + Transcript([]);
    } else {
      var rest := message[CAPTION_LIMIT..];
      TextPathSound(rest);
      TranscriptAppend([Photo(caption)], TextPayloads(rest));
      assert Transcript([Photo(caption)]) == caption + Transcript([]);
      assert message == caption + rest;
    }
  }

  /**
   * Whatever the message and whether or not a photo goes with it, at least one payload
   * is posted, every payload fits the transport's limits, and reading them in order
   * gives back the message.
   */
  lemma SendKeepsMessage(message: string, withPhoto: bool)
    ensures var ps := Payloads(message, withPhoto);
      |ps| >= 1 && WithinLimits(ps) && Transcript(ps) == message
  {
    if withPhoto {
      PhotoCaptionSplit(message);
      if |message| > CAPTION_LIMIT {
        TextPathSound(message[CAPTION_LIMIT..]);
      }
    } else {
      TextPathSound(message);
    }
  }

  /** A 9000-character report goes out as three texts: 4000, 4000 and 1000 characters. */
  lemma NineThousandCharacters(message: string)
    requires |message| == 9000
    ensures var ps := Payloads(message, false);
      |ps| == 3 && |ps[0].text| == 4000 && |ps[1].text| == 4000 && |ps[2].text| == 1000 &&
      Transcript(ps) == message
  {
    LongTextSplit(message);
  }

  /** A 1500-character caption: a photo with the first 1024, then one text with the other 476. */
  lemma FifteenHundredCharacterCaption(message: string)
    requires |message| == 1500
    ensures Payloads(message, true) == [Photo(message[..1024]), Text(message[1024..])]
    ensures |message[1024..]| == 476
  {
  }
}
