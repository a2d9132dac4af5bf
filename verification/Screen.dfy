/** The text screen: 25 rows of 80 characters in video memory, with a cursor. */
module Screen {

  const V_WIDTH: nat := 80
  const V_HEIGHT: nat := 25
  const V_SIZE: nat := 2000

  datatype Event = Put(c: char) | NewLine

  // ---- the unbounded transcript ----

  /** Rows that are complete, and the row being written. */
  datatype Transcript = Transcript(finished: seq<string>, current: string)

  type Wrapped = t: Transcript | |t.current| <= V_WIDTH && forall r :: r in t.finished ==> |r| <= V_WIDTH
    witness Transcript([], "")

  function AfterNewLine(t: Wrapped): (r: Wrapped)
    ensures r.current == ""
  {
    Transcript(t.finished + [t.current], "")
  }

  /** A character behind the row; the eightieth completes it. */
  function AfterPut(t: Wrapped, c: char): (r: Wrapped)
    requires |t.current| < V_WIDTH
    ensures |r.current| < V_WIDTH
  {
    var longer := Transcript(t.finished, t.current + [c]);
    if |t.current| + 1 == V_WIDTH then AfterNewLine(longer) else longer
  }

  function After(t: Wrapped, e: Event): (r: Wrapped)
    requires |t.current| < V_WIDTH
    ensures |r.current| < V_WIDTH
  {
    match e
    case Put(c) => AfterPut(t, c)
    case NewLine => AfterNewLine(t)
  }

  function TranscriptOf(events: seq<Event>): (t: Wrapped)
    ensures |t.current| < V_WIDTH
  {
    if events == [] then Transcript([], "") else After(TranscriptOf(events[..|events| - 1]), events[|events| - 1])
  }

  function Typed(events: seq<Event>): string {
    if events == [] then ""
    else Typed(events[..|events| - 1]) + if events[|events| - 1].Put? then [events[|events| - 1].c] else ""
  }

  function Joined(rows: seq<string>): string {
    if rows == [] then "" else Joined(rows[..|rows| - 1]) + rows[|rows| - 1]
  }

  /** Wrapping loses and reorders nothing: the rows together are the characters typed. */
  lemma {:induction false} TranscriptHoldsText(events: seq<Event>)
    ensures var t := TranscriptOf(events); Joined(t.finished) + t.current == Typed(events)
  {
    if events != [] {
      var before := events[..|events| - 1];
      TranscriptHoldsText(before);
      var t := TranscriptOf(before);
      var row := t.current + if events[|events| - 1].Put? then [events[|events| - 1].c] else "";
      assert (t.finished + [row])[..|t.finished|] == t.finished;
      assert (t.finished + [t.current])[..|t.finished|] == t.finished;
      assert Joined(t.finished) + row == Typed(events);
    }
  }

  function PutAll(s: string): (events: seq<Event>)
    ensures |events| == |s|
  {
    seq(|s|, k requires 0 <= k < |s| => Put(s[k]))
  }

  /** From the start of a row, a text fills rows of exactly 80 characters, and what is left over
      begins the next; a new line ends the row there, however short. */
  ghost predicate Wraps(t: Wrapped, s: string, u: Wrapped) {
    var rows, n := |t.finished|, |s| / 80;
    && |u.finished| == rows + n && u.finished[..rows] == t.finished && u.current == s[80 * n..]
    && forall k :: 0 <= k < n ==> u.finished[rows + k] == s[80 * k..80 * k + 80]
  }

  lemma {:induction false} TextWraps(events: seq<Event>, s: string)
    requires TranscriptOf(events).current == ""
    ensures Wraps(TranscriptOf(events), s, TranscriptOf(events + PutAll(s)))
    ensures
      var u := TranscriptOf(events + PutAll(s));
      TranscriptOf(events + PutAll(s) + [NewLine]) == Transcript(u.finished + [u.current], "")
  {
    hide TranscriptOf, Wraps, AfterPut;
    NextEvent(events + PutAll(s), NewLine);
    if s == "" {
      assert events + PutAll(s) == events;
      NothingWraps(TranscriptOf(events));
    } else {
      var r, c := s[..|s| - 1], s[|s| - 1];
      TextWraps(events, r);
      assert events + PutAll(s) == events + PutAll(r) + [Put(c)];
      NextEvent(events + PutAll(r), Put(c));
      OneMoreCharacter(TranscriptOf(events), r, c, TranscriptOf(events + PutAll(r)));
      assert r + [c] == s;
    }
  }

  lemma NextEvent(events: seq<Event>, e: Event)
    ensures TranscriptOf(events + [e]) == After(TranscriptOf(events), e)
  {
    assert (events + [e])[..|events|] == events;
  }

  lemma NothingWraps(t: Wrapped)
    requires t.current == ""
    ensures Wraps(t, "", t)
  {
  }

  lemma OneMoreCharacter(t: Wrapped, r: string, c: char, u: Wrapped)
    requires Wraps(t, r, u) && |u.current| < 80
    ensures Wraps(t, r + [c], AfterPut(u, c))
  {
    var s, n := r + [c], |r| / 80;
    if |u.current| + 1 == 80 {
      assert s[80 * n..80 * n + 80] == u.current + [c];
      assert |s| / 80 == n + 1 && s[80 * (n + 1)..] == "";
    } else {
      assert |s| / 80 == n && s[80 * n..] == u.current + [c];
    }
    assert forall k :: 0 <= k < n ==> s[80 * k..80 * k + 80] == r[80 * k..80 * k + 80];
  }

  /** The first transcript row on the screen. */
  function FirstRow(t: Wrapped): nat {
    if |t.finished| < V_HEIGHT then 0 else |t.finished| - (V_HEIGHT - 1)
  }

  function CursorRow(t: Wrapped): (y: nat)
    ensures y < V_HEIGHT
  {
    |t.finished| - FirstRow(t)
  }

  /** Column `x` of transcript row `i`, blank where nothing was written. */
  function CharAt(t: Wrapped, i: nat, x: nat): char {
    if i < |t.finished| then (if x < |t.finished[i]| then t.finished[i][x] else ' ')
    else if i == |t.finished| && x < |t.current| then t.current[x]
    else ' '
  }

  function Cell(t: Wrapped, k: nat): char {
    CharAt(t, FirstRow(t) + k / V_WIDTH, k % V_WIDTH)
  }

  /** The screen holds the last 25 rows, the one being written included, each from column 0 and
      blank behind its end; the cursor is on the row being written. */
  lemma ScreenShowsLastRows(t: Wrapped, y: nat, x: nat)
    requires y < 25 && x < 80
    ensures
      var rows := t.finished + [t.current];
      var first := if |rows| > 25 then |rows| - 25 else 0;
      && Cell(t, 80 * y + x) ==
         (if first + y < |rows| && x < |rows[first + y]| then rows[first + y][x] else ' ')
      && CursorRow(t) == |rows| - 1 - first
  {
    assert (80 * y + x) / 80 == y && (80 * y + x) % 80 == x;
  }

  /** Scrolling: the screen of the transcript with one more row is the old one moved up. */
  lemma ScrolledCell(t: Wrapped, k: nat)
    requires k < V_SIZE && CursorRow(t) == V_HEIGHT - 1
    ensures Cell(AfterNewLine(t), k) == if k + V_WIDTH < V_SIZE then Cell(t, k + V_WIDTH) else ' '
  {
    assert (k + V_WIDTH) / V_WIDTH == k / V_WIDTH + 1 && (k + V_WIDTH) % V_WIDTH == k % V_WIDTH;
  }

  lemma UnscrolledCell(t: Wrapped, k: nat)
    requires k < V_SIZE && CursorRow(t) < V_HEIGHT - 1
    ensures Cell(AfterNewLine(t), k) == Cell(t, k)
  {
  }

  /** Writing at the cursor appends to the row being written. */
  lemma PutCell(t: Wrapped, c: char, k: nat)
    requires k < V_SIZE && |t.current| < V_WIDTH
    ensures
      Cell(Transcript(t.finished, t.current + [c]), k) ==
      if k == CursorRow(t) * V_WIDTH + |t.current| then c else Cell(t, k)
  {
  }

  /** The place on a line of `limit` cells nearest to a coordinate. */
  function Nearest(x: int, limit: nat): (k: nat)
    requires limit > 0
    ensures k < limit
    ensures 0 <= x < limit ==> k == x
  {
    if x < 0 then 0 else if x >= limit then limit - 1 else x
  }

  class SysdarftCursesUI {
    const videoMemory: array<char>
    var cursorX: int
    var cursorY: int

    ghost predicate Valid()
      reads this
    {
      videoMemory.Length == V_SIZE && 0 <= cursorX < V_WIDTH && 0 <= cursorY < V_HEIGHT
    }

    /** The screen shows the last rows of the transcript, with the cursor at its end. */
    ghost predicate Shows(t: Wrapped)
      reads this, videoMemory
    {
      ShowsRows(t) && cursorX == |t.current|
    }

    ghost predicate ShowsRows(t: Wrapped)
      reads this, videoMemory
    {
      && Valid() && cursorY == CursorRow(t)
      && forall k :: 0 <= k < V_SIZE ==> videoMemory[k] == Cell(t, k)
    }

    constructor ()
      ensures Shows(Transcript([], "")) && fresh(videoMemory)
    {
      videoMemory := new char[V_SIZE](_ => ' ');
      cursorX := 0;
      cursorY := 0;
    }

    method SetCursor(x: int, y: int)
      requires videoMemory.Length == V_SIZE
      modifies this
      ensures Valid()
      ensures cursorX == Nearest(x, V_WIDTH) && cursorY == Nearest(y, V_HEIGHT)
    {
      cursorX := if x < 0 then 0 else if x > V_WIDTH - 1 then V_WIDTH - 1 else x;
      cursorY := if y < 0 then 0 else if y > V_HEIGHT - 1 then V_HEIGHT - 1 else y;
    }

    /** Moves every row up by one and blanks the last. */
    method ScrollUp()
      requires videoMemory.Length == V_SIZE
      modifies videoMemory
      ensures forall k :: 0 <= k < V_SIZE ==>
                videoMemory[k] == if k + V_WIDTH < V_SIZE then old(videoMemory[k + V_WIDTH]) else ' '
    {
      for i := 0 to V_HEIGHT - 1
        invariant forall k :: 0 <= k < V_SIZE ==>
          videoMemory[k] == if k < i * V_WIDTH then old(videoMemory[k + V_WIDTH]) else old(videoMemory[k])
      {
        CopyRow(i);
      }
      var at := (V_HEIGHT - 1) * V_WIDTH;
      for j := 0 to V_WIDTH
        invariant forall k :: 0 <= k < V_SIZE ==>
          videoMemory[k] == if k < at then old(videoMemory[k + V_WIDTH]) else if k < at + j then ' '
            else old(videoMemory[k])
      {
        videoMemory[at + j] := ' ';
      }
    }

    method CopyRow(i: nat)
      requires videoMemory.Length == V_SIZE && i < V_HEIGHT - 1
      modifies videoMemory
      ensures forall k :: 0 <= k < V_SIZE ==>
                videoMemory[k] ==
                if i * V_WIDTH <= k < (i + 1) * V_WIDTH then old(videoMemory[k + V_WIDTH]) else old(videoMemory[k])
    {
      var to := i * V_WIDTH;
      for j := 0 to V_WIDTH
        invariant forall k :: 0 <= k < V_SIZE ==>
          videoMemory[k] == if to <= k < to + j then old(videoMemory[k + V_WIDTH]) else old(videoMemory[k])
      {
        videoMemory[to + j] := videoMemory[to + V_WIDTH + j];
      }
    }

    method Newline(ghost t: Wrapped)
      requires ShowsRows(t)
      modifies this, videoMemory
      ensures Shows(AfterNewLine(t))
    {
      hide Cell;
      if cursorY == V_HEIGHT - 1 {
        ScrollUp();
        cursorX := 0;
        SetCursor(cursorX, cursorY);
        forall k | 0 <= k < V_SIZE
          ensures videoMemory[k] == Cell(AfterNewLine(t), k)
        {
          ScrolledCell(t, k);
        }
      } else {
        cursorX := 0;
        cursorY := cursorY + 1;
        SetCursor(cursorX, cursorY);
        forall k | 0 <= k < V_SIZE
          ensures videoMemory[k] == Cell(AfterNewLine(t), k)
        {
          UnscrolledCell(t, k);
        }
      }
    }

    method Teletype(text: char, ghost t: Wrapped)
      requires Shows(t) && |t.current| < V_WIDTH
      modifies this, videoMemory
      ensures Shows(AfterPut(t, text))
    {
      hide Cell, CursorRow;
      var currentX, currentY := cursorX, cursorY;
      videoMemory[currentY * V_WIDTH + currentX] := text;
      ghost var longer := Transcript(t.finished, t.current + [text]);
      SameCursorRow(t, longer);
      forall k | 0 <= k < V_SIZE
        ensures videoMemory[k] == Cell(longer, k)
      {
        PutCell(t, text, k);
      }
      currentX := currentX + 1;
      if currentX >= V_WIDTH {
        Newline(longer);
      } else {
        SetCursor(currentX, currentY);
      }
    }

    /** After any sequence of characters and new lines from a blank screen, the screen is the end
        of their transcript, and the cursor lies inside it. */
    method Play(events: seq<Event>)
      requires Shows(Transcript([], ""))
      modifies this, videoMemory
      ensures Shows(TranscriptOf(events)) && Valid()
    {
      hide Shows, After;
      for i := 0 to |events|
        invariant Shows(TranscriptOf(events[..i]))
      {
        PlayOne(events[i], TranscriptOf(events[..i]));
        assert events[..i + 1][..i] == events[..i];
      }
      assert events[..|events|] == events;
      InBounds(TranscriptOf(events));
    }

    method PlayOne(e: Event, ghost t: Wrapped)
      requires Shows(t) && |t.current| < V_WIDTH
      modifies this, videoMemory
      ensures Shows(After(t, e))
    {
      match e {
        case Put(c) => Teletype(c, t);
        case NewLine => Newline(t);
      }
    }

    lemma InBounds(t: Wrapped)
      requires Shows(t)
      ensures Valid()
    {
    }
  }

  lemma SameCursorRow(t: Wrapped, u: Wrapped)
    requires t.finished == u.finished
    ensures CursorRow(t) == CursorRow(u)
  {
  }
}
