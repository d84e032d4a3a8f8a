/** How the agent canvas cuts a streamed answer into sentences for speech
    (agent/canvas.py): the sentence-end pattern, the buffer, and the thinking markers. */
module SentenceStream {
  import opened Basics

  // ------------------------------------------------------------------ the pattern

  /** `[。！？!?；;\n]` */
  predicate IsTerminator(c: char) {
    c in {'\U{3002}', '\U{FF01}', '\U{FF1F}', '!', '?', '\U{FF1B}', ';', '\n'}
  }

  /** `[”’"』」】》）)]` */
  predicate IsCloser(c: char) {
    c in {'\U{201D}', '\U{2019}', '"', '\U{300F}', '\U{300D}', '\U{3011}', '\U{300B}', '\U{FF09}', ')'}
  }

  /** The first index from `p` on that is not a closing quote or bracket. */
  function SkipClosers(text: string, p: nat): (e: nat)
    requires p <= |text|
    ensures p <= e <= |text| && (e < |text| ==> !IsCloser(text[e]))
    ensures forall i | p <= i < e :: IsCloser(text[i])
    decreases |text| - p
  {
    if p < |text| && IsCloser(text[p]) then SkipClosers(text, p + 1) else p
  }

  /** The end of the match of the sentence-end pattern that starts at `p`: a terminator
      with its closers, or the empty match behind `.`, `!` or `?` in front of a space or
      at the end. */
  function MatchAt(text: string, p: nat): Option<nat>
    requires p <= |text|
  {
    if p < |text| && IsTerminator(text[p]) then Some(SkipClosers(text, p + 1))
    else if p > 0 && text[p - 1] in {'.', '!', '?'} && (p == |text| || IsSpace(text[p])) then Some(p)
    else None
  }

  /** What the pattern `(?:[。！？!?；;\n](?:[”’\"』」】》）)]*)|(?<=[.!?])(?=\s|$))` takes at a
      place: a terminator with all the closers behind it, or nothing, between a full stop,
      exclamation or question mark and a space or the end. */
  lemma MatchMeans(text: string, p: nat)
    requires p <= |text|
    ensures var terminator := p < |text| && text[p] in "。！？!?；;\n";
            var between := p > 0 && text[p - 1] in ".!?" && (p == |text| || IsSpace(text[p]));
            && (MatchAt(text, p).Some? <==> terminator || between)
            && (terminator ==>
                  var e := MatchAt(text, p).value;
                  && p < e <= |text|
                  && (forall i | p < i < e :: text[i] in "”’\"』」】》）)")
                  && (e == |text| || text[e] !in "”’\"』」】》）)"))
            && (between && !terminator ==> MatchAt(text, p).value == p)
  {
    assert forall c: char :: c in "。！？!?；;\n" <==> IsTerminator(c);
    assert forall c: char :: c in "”’\"』」】》）)" <==> IsCloser(c);
  }

  /** Where the leftmost match from `p` on ends. */
  function SearchFrom(text: string, p: nat): (e: Option<nat>)
    requires p <= |text|
    ensures e.None? ==> forall q: nat | p <= q <= |text| :: MatchAt(text, q).None?
    ensures e.Some? ==> exists q: nat :: p <= q <= |text| && MatchAt(text, q) == e
                                         && forall r: nat | p <= r < q :: MatchAt(text, r).None?
    decreases |text| - p
  {
    var m := MatchAt(text, p);
    if m.Some? || p == |text| then m else SearchFrom(text, p + 1)
  }

  function Search(text: string): Option<nat> { SearchFrom(text, 0) }

  /** A match never ends at position 0, not even an empty one: cutting there makes
      progress. */
  lemma MatchEndsLate(text: string)
    ensures Search(text).Some? ==> 1 <= Search(text).value <= |text|
  {
    if Search(text).Some? {
      var q: nat :| q <= |text| && MatchAt(text, q) == Search(text);
    }
  }

  // ------------------------------------------------------------------ cutting

  function Flatten(parts: seq<string>): string {
    if parts == [] then "" else parts[0] + Flatten(parts[1..])
  }

  lemma {:induction false} FlattenAppend(a: seq<string>, b: seq<string>)
    ensures Flatten(a + b) == Flatten(a) + Flatten(b)
  {
    if a == [] {
      assert a + b == b;
    } else {
      assert (a + b)[1..] == a[1..] + b;
      FlattenAppend(a[1..], b);
      assert a[0] + (Flatten(a[1..]) + Flatten(b)) == (a[0] + Flatten(a[1..])) + Flatten(b);
    }
  }

  datatype Pieces = Pieces(sentences: seq<string>, rest: string)

  /** The text cut at the first sentence end, and again until no end is left. */
  function Cut(text: string): Pieces
    decreases |text|
  {
    var e := Search(text);
    MatchEndsLate(text);
    if e.None? then Pieces([], text)
    else
      var more := Cut(text[e.value..]);
      Pieces([text[..e.value]] + more.sentences, more.rest)
  }

  lemma CutOnce(text: string)
    ensures Search(text).None? ==> Cut(text) == Pieces([], text)
    ensures Search(text).Some? ==>
              && 1 <= Search(text).value <= |text|
              && var more := Cut(text[Search(text).value..]);
                 Cut(text) == Pieces([text[..Search(text).value]] + more.sentences, more.rest)
  {
    hide Search;
    MatchEndsLate(text);
  }

  lemma FlattenFirst(head: string, parts: seq<string>, rest: string)
    ensures Flatten([head] + parts) + rest == head + (Flatten(parts) + rest)
  {
    assert ([head] + parts)[1..] == parts;
    assert (head + Flatten(parts)) + rest == head + (Flatten(parts) + rest);
  }

  /** Cutting loses nothing, makes no empty sentence and leaves no sentence end behind. */
  lemma {:induction false} CutKeepsText(text: string)
    ensures var p := Cut(text);
            Flatten(p.sentences) + p.rest == text && "" !in p.sentences && Search(p.rest).None?
    decreases |text|
  {
    hide Search, Cut, Flatten;
    CutOnce(text);
    var e := Search(text);
    if e.Some? {
      var head, more := text[..e.value], Cut(text[e.value..]);
      CutKeepsText(text[e.value..]);
      FlattenFirst(head, more.sentences, more.rest);
      assert text == head + text[e.value..];
    } else {
      assert Flatten([]) == "" by { FlattenNone(); }
    }
  }

  /** Every sentence ends where the first sentence end of the remaining text is. */
  lemma {:induction false} CutAtFirstEnds(text: string)
    ensures var p := Cut(text);
            forall i | 0 <= i < |p.sentences| :: Search(Flatten(p.sentences[i..]) + p.rest) == Some(|p.sentences[i]|)
    decreases |text|
  {
    hide Search, Cut, Flatten;
    CutOnce(text);
    CutKeepsText(text);
    var p, e := Cut(text), Search(text);
    if e.Some? {
      var more := Cut(text[e.value..]);
      CutAtFirstEnds(text[e.value..]);
      forall i | 0 <= i < |p.sentences| ensures Search(Flatten(p.sentences[i..]) + p.rest) == Some(|p.sentences[i]|) {
        if i == 0 { assert p.sentences[0..] == p.sentences; } else { assert p.sentences[i..] == more.sentences[i - 1..]; }
      }
    }
  }

  lemma FlattenNone()
    ensures Flatten([]) == ""
  {
  }

  /** The sentence loop of `_process_stream`. */
  method CutSentences(text: string) returns (sentences: seq<string>, rest: string)
    ensures Pieces(sentences, rest) == Cut(text)
  {
    hide Search;
    sentences, rest := [], text;
    while true
      invariant Cut(text) == Pieces(sentences + Cut(rest).sentences, Cut(rest).rest)
      decreases |rest|
    {
      var cut := Search(rest);
      if cut.None? {
        break;
      }
      MatchEndsLate(rest);
      ghost var more := Cut(rest[cut.value..]).sentences;
      assert sentences + ([rest[..cut.value]] + more) == (sentences + [rest[..cut.value]]) + more;
      sentences := sentences + [rest[..cut.value]];
      rest := rest[cut.value..];
    }
  }

  // ------------------------------------------------------------------ the stream

  const OPEN := "<think>"
  const CLOSE := "</think>"

  /** `buffer` is buff_m, `message` is _m, `scheduled` what went to `_schedule_tts`
      with a TTS model present (an empty text is not scheduled). */
  datatype Stream = Stream(buffer: string, message: string, thinking: bool, scheduled: seq<string>)

  const Start := Stream("", "", false, [])

  function Say(scheduled: seq<string>, text: string): seq<string> {
    if text == "" then scheduled else scheduled + [text]
  }

  /** The state after one chunk. */
  function Feed(s: Stream, chunk: string): Stream {
    if chunk == "" then s
    else if chunk == OPEN then s.(scheduled := Say(s.scheduled, s.buffer), thinking := true, buffer := "")
    else if chunk == CLOSE then s.(thinking := false)
    else if s.thinking then s.(message := s.message + chunk)
    else
      var p := Cut(s.buffer + chunk);
      s.(message := s.message + chunk, buffer := p.rest, scheduled := s.scheduled + p.sentences)
  }

  function FeedAll(s: Stream, chunks: seq<string>): Stream
    decreases |chunks|
  {
    if chunks == [] then s else FeedAll(Feed(s, chunks[0]), chunks[1..])
  }

  /** The end of the stream: what is left in the buffer is a sentence too. */
  function Finish(s: Stream): Stream { s.(scheduled := Say(s.scheduled, s.buffer), buffer := "") }

  /** The text of a chunk stream outside thinking, read off the chunks alone. */
  function Outside(chunks: seq<string>, thinking: bool): string
    decreases |chunks|
  {
    if chunks == [] then ""
    else if chunks[0] == OPEN then Outside(chunks[1..], true)
    else if chunks[0] == CLOSE then Outside(chunks[1..], false)
    else (if thinking then "" else chunks[0]) + Outside(chunks[1..], thinking)
  }

  /** All text of a chunk stream except the two markers. */
  function Unmarked(chunks: seq<string>): string
    decreases |chunks|
  {
    if chunks == [] then ""
    else (if IsMarker(chunks[0]) then "" else chunks[0]) + Unmarked(chunks[1..])
  }

  function Spoken(s: Stream): string { Flatten(s.scheduled) + s.buffer }

  lemma FlattenSay(scheduled: seq<string>, text: string)
    ensures Flatten(Say(scheduled, text)) == Flatten(scheduled) + text
  {
    FlattenAppend(scheduled, [text]);
    assert [text][1..] == [] && text + "" == text;
  }

  lemma Glue(scheduled: seq<string>, sentences: seq<string>, rest: string, buffer: string, chunk: string)
    requires Flatten(sentences) + rest == buffer + chunk
    ensures Flatten(scheduled + sentences) + rest == Flatten(scheduled) + buffer + chunk
  {
    FlattenAppend(scheduled, sentences);
    var a, b := Flatten(scheduled), Flatten(sentences);
    assert (a + b) + rest == a + (b + rest);
    assert a + (buffer + chunk) == a + buffer + chunk;
  }

  predicate IsMarker(chunk: string) { chunk == OPEN || chunk == CLOSE }

  lemma FeedSpoken(s: Stream, chunk: string)
    ensures Spoken(Feed(s, chunk)) == if s.thinking || IsMarker(chunk) then Spoken(s) else Spoken(s) + chunk
  {
    FlattenSay(s.scheduled, s.buffer);
    if !IsMarker(chunk) && !s.thinking {
      CutKeepsText(s.buffer + chunk);
      Glue(s.scheduled, Cut(s.buffer + chunk).sentences, Cut(s.buffer + chunk).rest, s.buffer, chunk);
    }
  }

  lemma {:induction false} FeedAllText(s: Stream, chunks: seq<string>)
    ensures Spoken(FeedAll(s, chunks)) == Spoken(s) + Outside(chunks, s.thinking)
    ensures FeedAll(s, chunks).message == s.message + Unmarked(chunks)
    decreases |chunks|
  {
    hide Spoken, Cut, Say;
    if chunks != [] {
      FeedSpoken(s, chunks[0]);
      var n := Feed(s, chunks[0]);
      FeedAllText(n, chunks[1..]);
      var own := if s.thinking || IsMarker(chunks[0]) then "" else chunks[0];
      assert Spoken(s) + (own + Outside(chunks[1..], n.thinking)) == (Spoken(s) + own) + Outside(chunks[1..], n.thinking);
      var kept := if IsMarker(chunks[0]) then "" else chunks[0];
      assert n.message == s.message + kept;
      assert s.message + (kept + Unmarked(chunks[1..])) == (s.message + kept) + Unmarked(chunks[1..]);
    }
  }

  /** Whatever the chunk boundaries and markers: the sentences handed to speech, in
      order, are exactly the text outside thinking, and the stored message is all the
      text that is not a marker. */
  lemma SpeechIsTheAnswer(chunks: seq<string>)
    ensures var s := Finish(FeedAll(Start, chunks));
            && Flatten(s.scheduled) == Outside(chunks, false) && s.buffer == ""
            && s.message == Unmarked(chunks)
  {
    FeedAllText(Start, chunks);
    var s := FeedAll(Start, chunks);
    FlattenSay(s.scheduled, s.buffer);
  }

  lemma {:induction false} NothingEmptyScheduled(s: Stream, chunks: seq<string>)
    requires "" !in s.scheduled
    ensures "" !in Finish(FeedAll(s, chunks)).scheduled
    decreases |chunks|
  {
    if chunks != [] {
      CutKeepsText(s.buffer + chunks[0]);
      NothingEmptyScheduled(Feed(s, chunks[0]), chunks[1..]);
    }
  }

  /** While the model thinks nothing waits in the buffer: what came before was handed to
      speech when the thinking began. */
  lemma {:induction false} NothingWaitsWhileThinking(s: Stream, chunks: seq<string>)
    requires s.thinking ==> s.buffer == ""
    ensures FeedAll(s, chunks).thinking ==> FeedAll(s, chunks).buffer == ""
    decreases |chunks|
  {
    hide Cut;
    if chunks != [] { NothingWaitsWhileThinking(Feed(s, chunks[0]), chunks[1..]); }
  }

  /** The closure variables of the message branch, updated in place. */
  class MessageStream {
    var buffer: string
    var message: string
    var inThinking: bool
    var scheduled: seq<string>

    function View(): Stream
      reads this
    {
      Stream(buffer, message, inThinking, scheduled)
    }

    constructor ()
      ensures View() == Start
    {
      buffer, message, inThinking, scheduled := "", "", false, [];
    }

    /** `_schedule_tts` with a model present. */
    method ScheduleTts(text: string)
      modifies this`scheduled
      ensures scheduled == Say(old(scheduled), text)
    {
      if text != "" {
        scheduled := scheduled + [text];
      }
    }

    /** `_process_stream` */
    method ProcessStream(chunk: string)
      modifies this
      ensures View() == Feed(old(View()), chunk)
    {
      if chunk == "" {
        return;
      }
      if chunk == OPEN {
        ScheduleTts(buffer);
        inThinking := true;
        buffer := "";
        return;
      }
      if chunk == CLOSE {
        inThinking := false;
        return;
      }
      message := message + chunk;
      if inThinking {
        return;
      }
      buffer := buffer + chunk;
      var sentences, rest := CutSentences(buffer);
      buffer := rest;
      scheduled := scheduled + sentences;
    }
  }
}
