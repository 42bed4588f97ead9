/** The stream side of the comment filter: a machine with a character buffer that is read from or written through. */
module FiniteStateFilter {
  import opened CommentFsm

  /** One answer of the upstream device; after the last event the device is at its end. */
  datatype Event = Character(c: char) | WouldBlock

  datatype Got = Event(event: Event) | Eof

  /** The characters among a sequence of events. */
  function Chars(events: seq<Event>): string
    decreases |events|
  {
    if events == [] then ""
    else if events[0].Character? then [events[0].c] + Chars(events[1..])
    else Chars(events[1..])
  }

  lemma OutAfter(held: string, s: State, c: char, x: string)
    ensures held + Out(s, [c] + x) == (held + Step(s, c).1) + Out(Step(s, c).0, x)
  {
    assert ([c] + x)[1..] == x;
  }

  class Source {
    var pending: seq<Event>

    constructor (events: seq<Event>)
      ensures pending == events
    {
      pending := events;
    }

    method Get() returns (g: Got)
      modifies this
      ensures old(pending) == [] ==> g.Eof? && pending == []
      ensures old(pending) != [] ==> g == Event(old(pending)[0]) && pending == old(pending)[1..]
    {
      if pending == [] {
        g := Eof;
      } else {
        g := Event(pending[0]);
        pending := pending[1..];
      }
    }
  }

  /** A downstream device; it answers the next offers as `answers` says and accepts everything afterwards. */
  class Sink {
    var answers: seq<bool>
    var received: string

    constructor (answers: seq<bool>)
      ensures this.answers == answers && received == ""
    {
      this.answers := answers;
      received := "";
    }

    ghost predicate Accepting()
      reads this
    {
      forall a | a in answers :: a
    }

    method Put(c: char) returns (ok: bool)
      modifies this
      ensures ok == (old(answers) == [] || old(answers)[0])
      ensures answers == if old(answers) == [] then [] else old(answers)[1..]
      ensures received == if ok then old(received) + [c] else old(received)
      ensures old(Accepting()) ==> ok && Accepting()
    {
      assert answers != [] ==> answers[0] in answers;
      ok := answers == [] || answers[0];
      if answers != [] {
        answers := answers[1..];
      }
      if ok {
        received := received + [c];
      }
      assert forall a | a in answers :: a in old(answers);
    }
  }

  class Filter {
    var buf: string
    var off: nat
    var state: State
    var reading: bool
    var writing: bool
    var atEof: bool

    constructor ()
      ensures Valid() && Pending() == "" && state == NoComment && !reading && !writing && !atEof
    {
      buf, off, state := "", 0, NoComment;
      reading, writing, atEof := false, false, false;
    }

    ghost predicate Valid()
      reads this
    {
      off <= |buf|
    }

    /** Characters produced by the machine and not yet handed over. */
    ghost function Pending(): string
      requires Valid()
      reads this
    {
      buf[off..]
    }

    /** All that reading from `src` will still deliver. */
    ghost function Rest(src: Source): string
      requires Valid()
      reads this, src
    {
      Pending() + Out(state, Chars(src.pending))
    }

    predicate Empty()
      reads this
    {
      off == |buf|
    }

    method Push(x: string)
      requires Valid()
      modifies this`buf
      ensures Valid() && Pending() == old(Pending()) + x
    {
      buf := buf + x;
    }

    method Pop() returns (c: char)
      requires Valid() && !Empty()
      modifies this`buf, this`off
      ensures Valid() && c == old(Pending())[0] && Pending() == old(Pending())[1..]
    {
      c := buf[off];
      off := off + 1;
      if off == |buf| {
        buf, off := "", 0;
      }
    }

    method ProcessEvent(c: char)
      requires Valid()
      modifies this`buf, this`state
      ensures Valid() && state == Step(old(state), c).0
      ensures Pending() == old(Pending()) + Step(old(state), c).1
    {
      var (next, out) := Step(state, c);
      Push(out);
      state := next;
    }

    /** Delivers the next filtered character, or nothing exactly when the filtered text is used up. */
    method Get(src: Source) returns (r: Got)
      requires Valid() && !writing && (atEof ==> src.pending == [])
      modifies this, src
      ensures Valid() && !writing && reading && (atEof ==> src.pending == [])
      ensures old(Rest(src)) == "" ==> r.Eof? && Rest(src) == ""
      ensures old(Rest(src)) != "" ==>
                r == Event(Character(old(Rest(src))[0])) && Rest(src) == old(Rest(src))[1..]
    {
      hide Step, Lookup;
      reading := true;
      while true
        invariant Valid() && !writing && reading && (atEof ==> src.pending == [])
        invariant Rest(src) == old(Rest(src))
        decreases |src.pending|, !atEof
      {
        if !atEof {
          var g := src.Get();
          if g.Eof? {
            atEof := true;
          } else if g.event.Character? {
            OutAfter(Pending(), state, g.event.c, Chars(src.pending));
            ProcessEvent(g.event.c);
          }
        }
        if !Empty() {
          var c := Pop();
          return Event(Character(c));
        } else if atEof {
          return Eof;
        }
      }
    }

    /** Offers what the machine makes of `c`; what the sink refuses stays in the buffer, in order. */
    method Put(dest: Sink, c: char) returns (ok: bool)
      requires Valid() && !reading
      modifies this, dest
      ensures ok && Valid() && !reading && writing && state == Step(old(state), c).0
      ensures dest.received + Pending() == old(dest.received) + old(Pending()) + Step(old(state), c).1
      ensures old(dest.Accepting()) ==> dest.Accepting() && Pending() == ""
    {
      hide Step, Lookup;
      writing := true;
      ProcessEvent(c);
      var accepted := true;
      while !Empty() && accepted
        invariant Valid() && !reading && writing && state == Step(old(state), c).0
        invariant dest.received + Pending() == old(dest.received) + old(Pending()) + Step(old(state), c).1
        invariant old(dest.Accepting()) ==> dest.Accepting() && accepted
        decreases |Pending()|, accepted
      {
        accepted := dest.Put(buf[off]);
        if accepted {
          var _ := Pop();
        }
      }
      return true;
    }

    /** Hands over the rest of the buffer and starts afresh; characters refused now are lost. */
    method Close(dest: Sink)
      requires Valid()
      modifies this, dest
      ensures Valid() && state == NoComment && Pending() == "" && !reading && !writing && !atEof
      ensures !old(writing) ==> dest.received == old(dest.received)
      ensures old(writing) && old(dest.Accepting()) ==> dest.received == old(dest.received) + old(Pending())
    {
      hide Step, Lookup;
      if writing {
        while !Empty()
          invariant Valid()
          invariant old(dest.Accepting()) ==>
                      dest.Accepting() && dest.received + Pending() == old(dest.received) + old(Pending())
          decreases |Pending()|
        {
          var c := Pop();
          var _ := dest.Put(c);
        }
      }
      state, buf, off := NoComment, "", 0;
      reading, writing, atEof := false, false, false;
    }
  }

  /** A client that reads a fresh filter to its end sees the filtered text, wherever the source blocks. */
  method ReadAll(src: Source) returns (text: string)
    modifies src
    ensures text == Out(NoComment, Chars(old(src.pending)))
  {
    hide Step, Lookup, Out, Chars;
    var filter := new Filter();
    text := "";
    while true
      invariant fresh(filter) && filter.Valid() && !filter.writing && (filter.atEof ==> src.pending == [])
      invariant text + filter.Rest(src) == Out(NoComment, Chars(old(src.pending)))
      decreases |filter.Rest(src)|
    {
      var r := filter.Get(src);
      if r.Eof? {
        break;
      }
      text := text + [r.event.c];
    }
  }

  /** Writing a text and closing delivers the filtered text to a sink that accepts everything. */
  method WriteAll(text: string, dest: Sink)
    requires dest.Accepting()
    modifies dest
    ensures dest.received == old(dest.received) + Out(NoComment, text)
  {
    hide Step, Lookup;
    var filter := new Filter();
    for i := 0 to |text|
      invariant fresh(filter) && filter.Valid() && !filter.reading && dest.Accepting() && filter.Pending() == ""
      invariant filter.writing || i == 0
      invariant filter.state == End(NoComment, text[..i])
      invariant dest.received == old(dest.received) + Out(NoComment, text[..i])
    {
      assert text[..i + 1] == text[..i] + [text[i]];
      RunConcat(NoComment, text[..i], [text[i]]);
      RunOne(filter.state, text[i]);
      ghost var before, step := dest.received, Step(filter.state, text[i]).1;
      var _ := filter.Put(dest, text[i]);
      calc {
        dest.received;
        dest.received + filter.Pending();
        before + "" + step;
        before + step;
        old(dest.received) + (Out(NoComment, text[..i]) + step);
      }
    }
    assert text[..|text|] == text;
    filter.Close(dest);
  }
}
