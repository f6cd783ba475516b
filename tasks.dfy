/** The task record and its one-line rendering (`Task.display`). */
module Tasks {
  import opened Options
  import opened Text

  /** One to-do item. The Kotlin `id` is a 32-bit `Int`; here it is unbounded. */
  datatype Task = Task(id: int, title: string, done: bool)

  /** The glyphs `display` shows for a finished and an open task. */
  const CheckMark: char := '\U{2713}'
  const CrossMark: char := '\U{2717}'

  function StatusGlyph(done: bool): char
  {
    if done then CheckMark else CrossMark
  }

  /** `#<id> [<glyph>] <title>`. */
  function Display(t: Task): (line: string)
  {
    "#" + IntToString(t.id) + " [" + [StatusGlyph(t.done)] + "] " + t.title
  }

  /** The first index at or after `from` that holds a space, or `|s|`. */
  function SpaceFrom(s: string, from: nat): (k: nat)
    requires from <= |s|
    ensures from <= k <= |s|
    ensures k < |s| ==> s[k] == ' '
    ensures forall j :: from <= j < k ==> s[j] != ' '
    decreases |s| - from
  {
    if from == |s| || s[from] == ' ' then from else SpaceFrom(s, from + 1)
  }

  /** Reads a line written by `Display` back into a task. */
  function ParseDisplay(line: string): Option<Task>
  {
    if |line| == 0 || line[0] != '#' then None
    else
      var k := SpaceFrom(line, 1);
      if k + 5 > |line| || line[k + 1] != '[' || line[k + 3] != ']' || line[k + 4] != ' ' then None
      else
        match ParseInt(line[1..k])
        case None => None
        case Some(id) =>
          if line[k + 2] == CheckMark then Some(Task(id, line[k + 5..], true))
          else if line[k + 2] == CrossMark then Some(Task(id, line[k + 5..], false))
          else None
  }

  /** The rendering loses nothing: the id, the done flag and the title can all
      be read back from it. */
  lemma DisplayRoundTrip(t: Task)
    ensures ParseDisplay(Display(t)) == Some(t)
  {
    var line := Display(t);
    var digits := IntToString(t.id);
    var n := 1 + |digits|;
    assert line[1..n] == digits;
    assert line[n] == ' ';
    forall j | 1 <= j < n ensures line[j] != ' ' {
      assert line[j] == digits[j - 1];
    }
    assert SpaceFrom(line, 1) == n;
    assert line[n + 5..] == t.title;
    IntRoundTrip(t.id);
  }

  /** Two tasks that display alike are the same task. */
  lemma DisplayInjective(a: Task, b: Task)
    requires Display(a) == Display(b)
    ensures a == b
  {
    DisplayRoundTrip(a);
    DisplayRoundTrip(b);
  }
}
