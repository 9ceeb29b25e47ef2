/** Reading a streamed chat reply: one JSON record per line, each possibly
    carrying a fragment of the assistant's content. */
module Streaming {
  import opened Types

  /** One line of the streamed body, already decoded: an empty line, a line
      that is not valid JSON, or a record with or without `message.content`. */
  datatype Line = Blank | Malformed | Record(content: Option<string>)

  /** What the reader emitted, in order, and whether a line failed to decode
      (which raises and ends the loop after what was already emitted). */
  datatype Emitted = Emitted(fragments: seq<string>, aborted: bool)

  predicate Decodes(l: Line) { !l.Malformed? }

  /** The reference reading of a stream, line by line. */
  function Fragments(lines: seq<Line>): (e: Emitted)
    ensures |e.fragments| <= |lines|
    ensures e.aborted <==> exists i :: 0 <= i < |lines| && !Decodes(lines[i])
    ensures forall f :: f in e.fragments ==> Record(Some(f)) in lines
  {
    if lines == [] then Emitted([], false)
    else match lines[0]
      case Blank => Fragments(lines[1..])
      case Malformed => Emitted([], true)
      case Record(c) =>
        var rest := Fragments(lines[1..]);
        if c.Some? then Emitted([c.value] + rest.fragments, rest.aborted) else rest
  }

  /** Independent reference: the contents of the records that carry one, in
      order; every other line contributes nothing. */
  function Contents(lines: seq<Line>): seq<string>
  {
    if lines == [] then []
    else (if lines[0].Record? && lines[0].content.Some? then [lines[0].content.value] else [])
         + Contents(lines[1..])
  }

  /** When every line decodes, the reading emits exactly the contents of the
      records that carry one, in order, and does not abort. */
  lemma {:induction false} FragmentsComplete(lines: seq<Line>)
    requires forall i :: 0 <= i < |lines| ==> Decodes(lines[i])
    ensures Fragments(lines) == Emitted(Contents(lines), false)
  {
    if lines != [] {
      FragmentsComplete(lines[1..]);
    }
  }

  /** Reading a stream in two parts: when the first part decodes, its fragments
      come first, followed by those of the second part. */
  lemma {:induction false} FragmentsAppend(a: seq<Line>, b: seq<Line>)
    requires forall i :: 0 <= i < |a| ==> Decodes(a[i])
    ensures Fragments(a + b) == Emitted(Fragments(a).fragments + Fragments(b).fragments, Fragments(b).aborted)
  {
    if a == [] {
      assert a + b == b;
    } else {
      assert (a + b)[0] == a[0];
      assert (a + b)[1..] == a[1..] + b;
      FragmentsAppend(a[1..], b);
    }
  }

  /** At the first undecodable line the reading aborts, having emitted exactly
      the contents of the records before it, and nothing after it. */
  lemma {:induction false} FragmentsStopAtMalformed(lines: seq<Line>, k: nat)
    requires k < |lines| && !Decodes(lines[k])
    requires forall i :: 0 <= i < k ==> Decodes(lines[i])
    ensures Fragments(lines) == Emitted(Contents(lines[..k]), true)
  {
    assert lines == lines[..k] + lines[k..];
    FragmentsAppend(lines[..k], lines[k..]);
    FragmentsComplete(lines[..k]);
  }

  /** Blank lines and records without content emit nothing. */
  lemma {:induction false} FragmentsSkipsSilentLines(lines: seq<Line>)
    requires forall i :: 0 <= i < |lines| ==> lines[i] == Blank || lines[i] == Record(None)
    ensures Fragments(lines) == Emitted([], false)
  {
    if lines != [] {
      FragmentsSkipsSilentLines(lines[1..]);
    }
  }

  /** The loop of the streaming example: skip empty lines, decode each other
      line, and emit the content of the records that carry one. */
  method StreamFragments(lines: seq<Line>) returns (fragments: seq<string>, aborted: bool)
    ensures Emitted(fragments, aborted) == Fragments(lines)
  {
    fragments, aborted := [], false;
    var i := 0;
    while i < |lines|
      invariant 0 <= i <= |lines|
      invariant Fragments(lines) == Emitted(fragments + Fragments(lines[i..]).fragments, Fragments(lines[i..]).aborted)
    {
      assert lines[i..][0] == lines[i] && lines[i..][1..] == lines[i + 1..];
      match lines[i] {
        case Blank =>
        case Malformed =>
          aborted := true;
          return;
        case Record(c) =>
          if c.Some? {
            fragments := fragments + [c.value];
          }
      }
      i := i + 1;
    }
  }
}
