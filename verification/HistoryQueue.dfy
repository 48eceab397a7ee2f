// The bounded drop-oldest queue between a terminal task and the thread that
// writes its scrollback (crates/gpty-core/src/history.rs, `LineQueue`).
module HistoryQueue {
  import opened Utf8Text

  datatype Line = Line(num: int, text: string)

  // What a window holds of a run of lines, measured as the queue measures it.
  function TextBytes(lines: seq<Line>): nat {
    if lines == [] then 0 else ByteLen(lines[0].text) + TextBytes(lines[1..])
  }

  predicate Fits(lines: seq<Line>, rows: nat, bytes: nat) {
    |lines| <= rows && TextBytes(lines) <= bytes
  }

  lemma {:induction false} TextBytesSplit(a: seq<Line>, b: seq<Line>)
    ensures TextBytes(a + b) == TextBytes(a) + TextBytes(b)
  {
    if a == [] {
      assert a + b == b;
    } else {
      assert (a + b)[1..] == a[1..] + b;
      TextBytesSplit(a[1..], b);
    }
  }

  // A later start in the same lines leaves less of them.
  lemma TextBytesOfSuffix(lines: seq<Line>, i: nat, j: nat)
    requires i <= j <= |lines|
    ensures TextBytes(lines[j..]) <= TextBytes(lines[i..])
  {
    TextBytesSplit(lines[i..j], lines[j..]);
    assert lines[i..j] + lines[j..] == lines[i..];
  }

  // Dropping the oldest lines until the rest fits.
  function NewestFitting(lines: seq<Line>, rows: nat, bytes: nat): seq<Line> {
    if Fits(lines, rows, bytes) || lines == [] then lines else NewestFitting(lines[1..], rows, bytes)
  }

  // `NewestFitting` is the longest suffix that fits: it keeps everything from
  // some line on, and every longer suffix is too large.
  lemma {:induction false} NewestFittingIsLongest(lines: seq<Line>, rows: nat, bytes: nat)
    ensures var kept := NewestFitting(lines, rows, bytes);
            && |kept| <= |lines|
            && kept == lines[|lines| - |kept|..]
            && Fits(kept, rows, bytes)
            && forall j :: 0 <= j < |lines| - |kept| ==> !Fits(lines[j..], rows, bytes)
  {
    if !Fits(lines, rows, bytes) {
      NewestFittingIsLongest(lines[1..], rows, bytes);
      var kept := NewestFitting(lines, rows, bytes);
      forall j | 0 <= j < |lines| - |kept|
        ensures !Fits(lines[j..], rows, bytes)
      {
        if j == 0 {
          assert lines[0..] == lines;
        } else {
          assert lines[1..][j - 1..] == lines[j..];
        }
      }
    }
  }

  // The queue's state as a value: what one critical section sees.
  datatype Queue = Queue(lines: seq<Line>, pending: nat, closed: bool)

  const EMPTY := Queue([], 0, false)

  // A push while the queue is open; a closed queue ignores it.
  function Pushed(q: Queue, line: Line, rows: nat, bytes: nat): Queue
    requires |q.lines| <= q.pending
  {
    if q.closed then q
    else
      NewestFittingIsLongest(q.lines + [line], rows, bytes);
      var kept := NewestFitting(q.lines + [line], rows, bytes);
      Queue(kept, q.pending + 1 - (|q.lines| + 1 - |kept|), false)
  }

  function Taken(q: Queue): Queue {
    q.(lines := [])
  }

  function Acknowledged(q: Queue, rows: nat): Queue {
    q.(pending := if rows <= q.pending then q.pending - rows else 0)
  }

  class LineQueue {
    const windowRows: nat
    const windowBytes: nat
    var lines: seq<Line>
    var bytes: nat
    // Pushed but not yet committed, dropped lines excluded.
    var pending: nat
    var closed: bool

    ghost predicate Valid()
      reads this
    {
      bytes == TextBytes(lines)
    }

    function View(): Queue
      reads this
    {
      Queue(lines, pending, closed)
    }

    constructor (windowRows: nat, windowBytes: nat)
      ensures Valid() && View() == EMPTY
      ensures this.windowRows == windowRows && this.windowBytes == windowBytes
    {
      this.windowRows, this.windowBytes := windowRows, windowBytes;
      lines, bytes, pending, closed := [], 0, 0, false;
    }

    // Every queued line is counted as pending, so the counter cannot wrap.
    method Push(num: int, text: string)
      requires Valid() && |lines| <= pending
      modifies this
      ensures Valid()
      ensures View() == Pushed(old(View()), Line(num, text), windowRows, windowBytes)
    {
      if closed {
        return;
      }
      bytes := bytes + ByteLen(text);
      pending := pending + 1;
      ghost var all := lines + [Line(num, text)];
      TextBytesSplit(lines, [Line(num, text)]);
      lines := lines + [Line(num, text)];
      NewestFittingIsLongest(all, windowRows, windowBytes);
      while (|lines| > windowRows || bytes > windowBytes) && lines != []
        invariant Valid() && !closed && |lines| <= pending
        invariant NewestFitting(lines, windowRows, windowBytes) == NewestFitting(all, windowRows, windowBytes)
        invariant |lines| <= |all| && pending == old(pending) + 1 - (|all| - |lines|)
        decreases |lines|
      {
        bytes := bytes - ByteLen(lines[0].text);
        pending := pending - 1;
        lines := lines[1..];
      }
    }

    method Take() returns (taken: seq<Line>)
      requires Valid()
      modifies this
      ensures Valid()
      ensures taken == old(lines) && View() == Taken(old(View()))
    {
      taken := lines;
      bytes := 0;
      lines := [];
    }

    // A saturating subtraction of a committed batch's size.
    method Flushed(rows: nat)
      requires Valid()
      modifies this
      ensures Valid()
      ensures View() == Acknowledged(old(View()), rows)
      ensures pending == (if rows <= old(pending) then old(pending) - rows else 0) && lines == old(lines) && closed == old(closed)
    {
      pending := if rows <= pending then pending - rows else 0;
    }

    method Close()
      requires Valid()
      modifies this
      ensures Valid() && View() == old(View()).(closed := true)
    {
      closed := true;
    }
  }
}
