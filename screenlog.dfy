/** The on-screen log of the blueprint runtime: a queue of at most six lines,
    each shown for two seconds, rendered as one text joined by newlines. */
module ScreenLog {
  import opened Util

  /** How long a pushed line stays, in seconds (`f32`, kept as a real). */
  const DefaultTtl: real := 2.0

  /** How many lines the queue keeps. */
  const MaxLines: nat := 6

  /** The last `n` entries of `s`, or all of them when there are fewer. */
  function LastN<T>(s: seq<T>, n: nat): (r: seq<T>)
    ensures |r| == if |s| <= n then |s| else n
    ensures r == s[|s| - |r|..]
  {
    if |s| <= n then s else s[|s| - n..]
  }

  /** Every time to live lowered by `dt`, texts and order kept. */
  function Elapsed(lines: seq<(string, real)>, dt: real): (r: seq<(string, real)>)
    ensures |r| == |lines|
    ensures forall i :: 0 <= i < |r| ==> r[i].0 == lines[i].0 && r[i].1 == lines[i].1 - dt
  {
    seq(|lines|, i requires 0 <= i < |lines| => (lines[i].0, lines[i].1 - dt))
  }

  /** The queue after popping expired lines off the front, stopping at the first live one. */
  function DropExpired(lines: seq<(string, real)>): (r: seq<(string, real)>)
    ensures |r| <= |lines| && r == lines[|lines| - |r|..]
    ensures |r| > 0 ==> r[0].1 > 0.0
    ensures forall i :: 0 <= i < |lines| - |r| ==> lines[i].1 <= 0.0
    decreases |lines|
  {
    if |lines| > 0 && lines[0].1 <= 0.0 then
      var r := DropExpired(lines[1..]);
      assert forall i :: 1 <= i < |lines| ==> lines[1..][i - 1] == lines[i];
      r
    else lines
  }

  /** A live line at the front protects the whole queue, expired lines behind it included. */
  lemma LiveFrontKeepsAll(lines: seq<(string, real)>)
    requires |lines| > 0 && lines[0].1 > 0.0
    ensures DropExpired(lines) == lines
  {
  }

  /** The texts joined with `"\n"` between consecutive entries. */
  function Join(texts: seq<string>): string
    decreases |texts|
  {
    if |texts| == 0 then ""
    else if |texts| == 1 then texts[0]
    else texts[0] + "\n" + Join(texts[1..])
  }

  /** The position of the first newline of `s`, if any. */
  function FirstNewline(s: string): (r: Option<nat>)
    ensures r.None? <==> '\n' !in s
    ensures r.Some? ==> r.value < |s| && s[r.value] == '\n' && '\n' !in s[..r.value]
    decreases |s|
  {
    if |s| == 0 then None
    else if s[0] == '\n' then Some(0)
    else
      match FirstNewline(s[1..])
      case None => None
      case Some(i) =>
        assert s[..i + 1] == [s[0]] + s[1..][..i];
        Some(i + 1)
  }

  /** The text cut at every newline: the inverse of `Join`. */
  function Split(s: string): (r: seq<string>)
    ensures |r| >= 1
    decreases |s|
  {
    match FirstNewline(s)
    case None => [s]
    case Some(i) => [s[..i]] + Split(s[i + 1..])
  }

  /** Splitting the rendered text at newlines gives back the lines, provided none holds a newline. */
  lemma {:induction false} SplitJoin(texts: seq<string>)
    requires |texts| >= 1
    requires forall i :: 0 <= i < |texts| ==> '\n' !in texts[i]
    ensures Split(Join(texts)) == texts
    decreases |texts|
  {
    if |texts| == 1 {
      assert FirstNewline(texts[0]).None?;
    } else {
      var x := texts[0];
      var rest := texts[1..];
      var s := x + "\n" + Join(rest);
      assert s[..|x|] == x && s[|x|] == '\n';
      FirstNewlineAt(x, Join(rest));
      assert s[|x| + 1..] == Join(rest);
      SplitJoin(rest);
      assert [x] + rest == texts;
    }
  }

  /** The first newline after a newline-free text is the one that follows it. */
  lemma {:induction false} FirstNewlineAt(x: string, y: string)
    requires '\n' !in x
    ensures FirstNewline(x + "\n" + y) == Some(|x|)
    decreases |x|
  {
    var s := x + "\n" + y;
    if |x| > 0 {
      assert s[0] == x[0] && s[1..] == x[1..] + "\n" + y;
      FirstNewlineAt(x[1..], y);
    }
  }

  function Texts(lines: seq<(string, real)>): (r: seq<string>)
    ensures |r| == |lines| && forall i :: 0 <= i < |r| ==> r[i] == lines[i].0
  {
    seq(|lines|, i requires 0 <= i < |lines| => lines[i].0)
  }

  /** The screen-log plugin's queue of `(text, time to live)` lines. */
  class ScreenLogPlugin {
    var lines: seq<(string, real)>

    constructor()
      ensures lines == []
    {
      lines := [];
    }

    /** Queues `text` for `DefaultTtl` seconds, dropping the oldest lines beyond `MaxLines`. */
    method Push(text: string)
      modifies this
      ensures lines == LastN(old(lines) + [(text, DefaultTtl)], MaxLines)
    {
      lines := lines + [(text, DefaultTtl)];
      ghost var all := lines;
      while |lines| > MaxLines
        invariant |lines| <= |all| && lines == all[|all| - |lines|..]
        invariant (|lines| >= MaxLines || |all| <= MaxLines) && (|all| <= MaxLines ==> lines == all)
        decreases |lines|
      {
        lines := lines[1..];
      }
    }

    /** Ages every line by `dt` and pops the expired ones off the front. */
    method Update(dt: real)
      modifies this
      ensures lines == DropExpired(Elapsed(old(lines), dt))
    {
      if |lines| == 0 {
        return;
      }
      var i := 0;
      ghost var before := lines;
      while i < |lines|
        invariant 0 <= i <= |lines| == |before|
        invariant forall j :: 0 <= j < i ==> lines[j] == (before[j].0, before[j].1 - dt)
        invariant forall j :: i <= j < |lines| ==> lines[j] == before[j]
      {
        lines := lines[i := (lines[i].0, lines[i].1 - dt)];
        i := i + 1;
      }
      assert lines == Elapsed(before, dt);
      while |lines| > 0 && lines[0].1 <= 0.0
        invariant DropExpired(lines) == DropExpired(Elapsed(before, dt))
        decreases |lines|
      {
        lines := lines[1..];
      }
    }

    /** The text the log shows: the queued texts in order, one per line. */
    function Render(): string
      reads this
    {
      Join(Texts(lines))
    }
  }

  /** A push keeps at most `MaxLines` lines and drops only from the front: nothing when there was
      room, exactly the oldest line when the queue was full. */
  lemma PushBounded(lines: seq<(string, real)>, text: string)
    ensures var r := LastN(lines + [(text, DefaultTtl)], MaxLines);
      && |r| <= MaxLines && r[|r| - 1] == (text, DefaultTtl)
      && (|lines| < MaxLines ==> r == lines + [(text, DefaultTtl)])
      && (|lines| == MaxLines ==> r == lines[1..] + [(text, DefaultTtl)])
  {
    var all := lines + [(text, DefaultTtl)];
    if |lines| == MaxLines {
      assert all[1..] == lines[1..] + [(text, DefaultTtl)];
    }
  }
}
