/**
 * One project's rows, assembled task by task: the outlook link of a title
 * moves into the task's notes, the ThunderLinks of the notes move into the
 * title, the remaining notes become the note block, the recurrence phrase is
 * translated, the priority is mapped and each row gets its place in the
 * list order.
 *
 * A task's times are the parsed, local-time timestamps, as ordered integer
 * keys; the header line of a note is a function of its key.
 */
module Export {
  import opened Wrappers
  import opened Links
  import opened Notes
  import opened Recurrence

  /** The fields of a task the row is made from. */
  datatype Task = Task(id: int, content: string, dateAdded: int, dateString: string, priority: int)

  /** The columns of a row that depend on the task (the others are constants). */
  datatype Row = Row(listName: string, title: string, content: string, repeat: string, priority: string, order: int)

  /** The notes filed under a task id, none when the id has no entry. */
  function NotesIn(byTask: map<int, seq<Note>>, id: int): seq<Note> {
    if id in byTask then byTask[id] else []
  }

  /** The `notes` dict: each task's notes in the order they were filed. */
  class NoteIndex {
    var byTask: map<int, seq<Note>>

    constructor (byTask0: map<int, seq<Note>>)
      ensures byTask == byTask0
    {
      byTask := byTask0;
    }

    function NotesOf(id: int): seq<Note>
      reads this
    {
      NotesIn(byTask, id)
    }

    /** Files `n` after the task's other notes, creating its entry if need be. */
    method Append(id: int, n: Note)
      modifies this
      ensures byTask == old(byTask)[id := old(NotesOf(id)) + [n]]
      ensures NotesOf(id) == old(NotesOf(id)) + [n]
      ensures forall other :: other != id ==> NotesOf(other) == old(NotesOf(other))
    {
      if id !in byTask {
        byTask := byTask[id := []];
      }
      byTask := byTask[id := byTask[id] + [n]];
    }
  }

  /**
   * The title and the notes once an outlook link in the title has moved: the
   * title becomes the link's display text and the link is filed as a note
   * posted when the task was added.
   */
  function PromoteOutlook(task: Task, notes: seq<Note>): (r: (string, seq<Note>))
    ensures |r.1| == |notes| + (if MatchOutlookLink(task.content).Some? then 1 else 0)
    ensures r.1[..|notes|] == notes
  {
    match MatchOutlookLink(task.content)
    case Some(l) => (l.title, notes + [Note(l.link, task.dateAdded)])
    case None => (task.content, notes)
  }

  /** The link a note gives the title: a carriage return and its ThunderLink, or nothing. */
  function LinkOf(n: Note): string {
    match MatchThunderLink(n.content) case Some(link) => "\r" + link case None => ""
  }

  /** The ThunderLinks of the notes, each after a carriage return, in list order. */
  function ThunderLinks(notes: seq<Note>): string {
    if notes == [] then ""
    else
      ThunderLinks(notes[..|notes| - 1]) + LinkOf(notes[|notes| - 1])
  }

  /** The notes without a ThunderLink, in list order: the ones the note block is made of. */
  function Kept(notes: seq<Note>): (r: seq<Note>)
    ensures |r| <= |notes|
    ensures forall n :: n in r ==> n in notes && MatchThunderLink(n.content).None?
  {
    if notes == [] then []
    else
      var n := notes[|notes| - 1];
      Kept(notes[..|notes| - 1]) + (if MatchThunderLink(n.content).Some? then [] else [n])
  }

  lemma Regroup<T>(x: seq<T>, y: seq<T>, z: seq<T>)
    ensures x + y + z == x + (y + z)
  {
  }

  /** Splitting the note list splits the title links the same way. */
  lemma {:induction false} ThunderLinksSplit(a: seq<Note>, b: seq<Note>)
    ensures ThunderLinks(a + b) == ThunderLinks(a) + ThunderLinks(b)
    decreases |b|
  {
    hide MatchThunderLink;
    if b == [] {
      assert a + b == a;
    } else {
      var init := b[..|b| - 1];
      var x := LinkOf(b[|b| - 1]);
      assert (a + b)[..|a + b| - 1] == a + init;
      ThunderLinksSplit(a, init);
      Regroup(ThunderLinks(a), ThunderLinks(init), x);
    }
  }

  /** Splitting the note list splits the kept notes the same way. */
  lemma {:induction false} KeptSplit(a: seq<Note>, b: seq<Note>)
    ensures Kept(a + b) == Kept(a) + Kept(b)
    decreases |b|
  {
    hide MatchThunderLink;
    if b == [] {
      assert a + b == a;
    } else {
      var init := b[..|b| - 1];
      var n := b[|b| - 1];
      var x := if MatchThunderLink(n.content).Some? then [] else [n];
      assert (a + b)[..|a + b| - 1] == a + init;
      KeptSplit(a, init);
      Regroup(Kept(a), Kept(init), x);
    }
  }

  /** The title gains nothing exactly when no note holds a ThunderLink. */
  lemma {:induction false} NoThunderLinks(notes: seq<Note>)
    ensures ThunderLinks(notes) == "" <==> forall n :: n in notes ==> MatchThunderLink(n.content).None?
    decreases |notes|
  {
    hide MatchThunderLink;
    if notes != [] {
      var init := notes[..|notes| - 1];
      var n := notes[|notes| - 1];
      NoThunderLinks(init);
      var t, l := ThunderLinks(init), LinkOf(n);
      assert |t + l| == |t| + |l|;
      if forall x :: x in notes ==> MatchThunderLink(x.content).None? {
        assert forall x :: x in init ==> x in notes;
        assert n in notes;
      } else {
        var x :| x in notes && MatchThunderLink(x.content).Some?;
        assert x == n || x in init;
      }
    }
  }

  /** When no note holds a ThunderLink, every note is kept. */
  lemma {:induction false} AllKept(notes: seq<Note>)
    requires forall i :: 0 <= i < |notes| ==> MatchThunderLink(notes[i].content).None?
    ensures Kept(notes) == notes
    decreases |notes|
  {
    hide MatchThunderLink;
    if notes != [] {
      var init := notes[..|notes| - 1];
      AllKept(init);
      assert init + [notes[|notes| - 1]] == notes;
    }
  }

  /** Each note either gives its link to the title or stays: the kept notes are the others. */
  lemma {:induction false} KeptExactly(notes: seq<Note>, n: Note)
    ensures n in Kept(notes) <==> n in notes && MatchThunderLink(n.content).None?
    decreases |notes|
  {
    hide MatchThunderLink;
    if notes != [] {
      var init := notes[..|notes| - 1];
      assert notes == init + [notes[|notes| - 1]];
      KeptExactly(init, n);
    }
  }

  /** Priority codes for Todoist priorities 1 to 4. */
  const PriorityCodes: seq<string> := ["0", "1", "3", "5"]

  /**
   * `['0', '1', '3', '5'][priority - 1]`: Python also accepts the negative
   * indexes, so priorities -3 to 0 wrap around, and any other priority raises
   * (None here).
   */
  function PriorityCode(p: int): (r: Option<string>)
    ensures r.Some? <==> -3 <= p <= 4
    ensures r.Some? ==> r.value in PriorityCodes
  {
    if 1 <= p <= 4 then Some(PriorityCodes[p - 1])
    else if -3 <= p <= 0 then Some(PriorityCodes[p + 3])
    else None
  }

  /**
   * Todoist priorities 1 (normal) to 4 (urgent) give ascending codes; the
   * negative indexes reach the same codes as the four priorities above them.
   */
  lemma PriorityCodesAscend(p: int, q: int)
    requires 1 <= p < q <= 4
    ensures PriorityCode(p).value[0] < PriorityCode(q).value[0]
    ensures PriorityCode(p - 4) == PriorityCode(p)
    ensures PriorityCode(1) == Some("0") && PriorityCode(4) == Some("5")
  {
  }

  /** `1 << 38`: the spacing of the row orders. */
  const OrderStep: int := 274877906944

  /** `(1 - n + k) << 38`: the order of the `k`-th of `n` rows. */
  function Order(n: nat, k: nat): int {
    (1 - n + k) * OrderStep
  }

  /** The row of a task whose notes (outlook link not yet moved) are `notes`. */
  function RowOf(listName: string, task: Task, notes: seq<Note>, header: int -> string, order: int): Row
    requires PriorityCode(task.priority).Some?
  {
    var (title, all) := PromoteOutlook(task, notes);
    Row(listName, title + ThunderLinks(all), NoteBlock(Kept(all), header),
        ParseRecurrence(task.dateString), PriorityCode(task.priority).value, order)
  }

  /**
   * A title holding an outlook link loses it: the title becomes the link's
   * display text, and the notes gain exactly one note, the link, posted when
   * the task was added.
   */
  lemma OutlookMoved(task: Task, notes: seq<Note>, p: nat, q: nat, e: nat)
    requires OutlookAt(task.content, p, q, e)
    requires forall x: nat, y: nat, z: nat :: OutlookAt(task.content, x, y, z) ==> !Before(x, y, z, p, q, e)
    ensures PromoteOutlook(task, notes) == (task.content[q..e], notes + [Note(task.content[p..e + 2], task.dateAdded)])
  {
    OutlookLinkFound(task.content, p, q, e);
  }

  /** A title without an outlook link keeps its text, and the notes stay as they are. */
  lemma OutlookStays(task: Task, notes: seq<Note>)
    requires forall x: nat, y: nat, z: nat :: !OutlookAt(task.content, x, y, z)
    ensures PromoteOutlook(task, notes) == (task.content, notes)
  {
    OutlookLinkAbsent(task.content);
  }

  /**
   * A task with neither kind of link keeps its text as the title, and all
   * its notes go to the note block.
   */
  lemma PlainRow(listName: string, task: Task, notes: seq<Note>, header: int -> string, order: int)
    requires PriorityCode(task.priority).Some?
    requires forall x: nat, y: nat, z: nat :: !OutlookAt(task.content, x, y, z)
    requires forall n :: n in notes ==> MatchThunderLink(n.content).None?
    ensures RowOf(listName, task, notes, header, order).title == task.content
    ensures RowOf(listName, task, notes, header, order).content == NoteBlock(notes, header)
  {
    OutlookStays(task, notes);
    NoThunderLinks(notes);
    forall i | 0 <= i < |notes|
      ensures MatchThunderLink(notes[i].content).None?
    {
      assert notes[i] in notes;
    }
    AllKept(notes);
  }

  /** The notes dict once the task's outlook link, if any, is filed. */
  function AfterTask(byTask: map<int, seq<Note>>, task: Task): map<int, seq<Note>> {
    if MatchOutlookLink(task.content).Some? then
      byTask[task.id := PromoteOutlook(task, NotesIn(byTask, task.id)).1]
    else byTask
  }

  /** The notes dict once the tasks' outlook links are filed, in list order. */
  function AfterTasks(byTask: map<int, seq<Note>>, tasks: seq<Task>): map<int, seq<Note>> {
    if tasks == [] then byTask
    else AfterTask(AfterTasks(byTask, tasks[..|tasks| - 1]), tasks[|tasks| - 1])
  }

  /**
   * The notes each task of the list finds filed under its id: the notes dict
   * as the tasks before it left it.
   */
  function NotesSeen(byTask: map<int, seq<Note>>, tasks: seq<Task>): (seen: seq<seq<Note>>)
    ensures |seen| == |tasks|
  {
    seq(|tasks|, k requires 0 <= k < |tasks| => NotesIn(AfterTasks(byTask, tasks[..k]), tasks[k].id))
  }

  /** One more note: its link joins the title, or it joins the kept notes. */
  lemma MergeStep(notes: seq<Note>, i: nat)
    requires i < |notes|
    ensures var n := notes[i];
      ThunderLinks(notes[..i + 1]) == ThunderLinks(notes[..i]) + LinkOf(n)
    ensures var n := notes[i];
      ByDate(Kept(notes[..i + 1]))
        == if MatchThunderLink(n.content).Some? then ByDate(Kept(notes[..i])) else ByDate(Kept(notes[..i]))[n.posted := n]
  {
    hide MatchThunderLink;
    var n := notes[i];
    assert notes[..i + 1][..i] == notes[..i];
    KeptStep(Kept(notes[..i]), n);
  }

  /** Keying the kept notes by time: one more kept note overwrites its time's entry. */
  lemma KeptStep(kept: seq<Note>, n: Note)
    ensures ByDate(kept + (if MatchThunderLink(n.content).Some? then [] else [n]))
        == if MatchThunderLink(n.content).Some? then ByDate(kept) else ByDate(kept)[n.posted := n]
  {
    hide MatchThunderLink;
    if MatchThunderLink(n.content).None? {
      assert (kept + [n])[..|kept|] == kept;
    } else {
      assert kept + [] == kept;
    }
  }

  /** Filing the tasks' outlook links leaves the notes of every other id alone. */
  lemma {:induction false} AfterTasksElsewhere(byTask: map<int, seq<Note>>, tasks: seq<Task>, id: int)
    requires forall t :: t in tasks ==> t.id != id
    ensures NotesIn(AfterTasks(byTask, tasks), id) == NotesIn(byTask, id)
    decreases |tasks|
  {
    if tasks != [] {
      var init := tasks[..|tasks| - 1];
      assert forall t :: t in init ==> t in tasks;
      AfterTasksElsewhere(byTask, init, id);
      assert tasks[|tasks| - 1] in tasks;
    }
  }

  /**
   * When the task ids differ, as they do in an export, each task sees just
   * the notes filed for it beforehand.
   */
  lemma SeenWhenIdsDiffer(byTask: map<int, seq<Note>>, tasks: seq<Task>, k: nat)
    requires forall i, j :: 0 <= i < j < |tasks| ==> tasks[i].id != tasks[j].id
    requires k < |tasks|
    ensures NotesSeen(byTask, tasks)[k] == NotesIn(byTask, tasks[k].id)
  {
    var before := tasks[..k];
    forall t | t in before
      ensures t.id != tasks[k].id
    {
      var i :| 0 <= i < k && before[i] == t;
    }
    AfterTasksElsewhere(byTask, before, tasks[k].id);
  }

  /** The orders climb by `1 << 38` from row to row, and the last row's is 0. */
  lemma OrdersAscend(n: nat)
    ensures forall j, k :: 0 <= j < k < n ==> Order(n, j) < Order(n, k)
    ensures forall k :: 0 <= k < n ==> Order(n, k) <= 0 && Order(n, k) % OrderStep == 0
    ensures n > 0 ==> Order(n, n - 1) == 0
  {
    forall k | 0 <= k < n
      ensures Order(n, k) % OrderStep == 0
    {
      var d := 1 - n + k;
      assert Order(n, k) == d * OrderStep;
    }
  }

  /**
   * Lines 128-134: moves an outlook link out of the task's title into its
   * notes and gives the title left.
   */
  method MoveOutlookLink(index: NoteIndex, task: Task) returns (title: string)
    modifies index
    ensures title == PromoteOutlook(task, old(index.NotesOf(task.id))).0
    ensures index.byTask == AfterTask(old(index.byTask), task)
  {
    title := task.content;
    var mob := MatchOutlookLink(task.content);
    if mob.Some? {
      index.Append(task.id, Note(mob.value.link, task.dateAdded));
      title := mob.value.title;
    }
  }

  /**
   * Lines 137-147: moves the ThunderLinks of the notes into the title and
   * keys the other notes by their time.
   */
  method SortOutNotes(title: string, notes: seq<Note>) returns (newTitle: string, notesByDate: map<int, Note>)
    ensures newTitle == title + ThunderLinks(notes)
    ensures notesByDate == ByDate(Kept(notes))
  {
    newTitle := title;
    notesByDate := map[];
    var i := 0;
    while i < |notes|
      invariant i <= |notes|
      invariant newTitle == title + ThunderLinks(notes[..i])
      invariant notesByDate == ByDate(Kept(notes[..i]))
    {
      var n := notes[i];
      MergeStep(notes, i);
      Regroup(title, ThunderLinks(notes[..i]), LinkOf(n));
      var mob := MatchThunderLink(n.content);
      if mob.Some? {
        newTitle := newTitle + ("\r" + mob.value);
      } else {
        assert LinkOf(n) == "";
        notesByDate := notesByDate[n.posted := n];
      }
      i := i + 1;
    }
    assert notes[..i] == notes;
  }

  /**
   * Lines 148-154: writes the entries of the keyed notes, in the order of
   * `keys`, each as its header line and its cleaned-up text.
   */
  method WriteNoteBlock(keys: seq<int>, notesByDate: map<int, Note>, header: int -> string) returns (block: string)
    requires forall k :: k in keys ==> k in notesByDate
    ensures forall k :: k in keys ==> k in Bodies(notesByDate)
    ensures block == Block(keys, Bodies(notesByDate), header)
  {
    var bodies := Bodies(notesByDate);
    block := "";
    var j := 0;
    while j < |keys|
      invariant j <= |keys|
      invariant block == Block(keys[..j], bodies, header)
    {
      var k := keys[j];
      BlockStep(keys, j, bodies, header);
      var body := NoteBody(notesByDate[k].content);
      assert body == bodies[k];
      block := block + Entry(k, body, header);
      j := j + 1;
    }
    assert keys[..j] == keys;
  }

  /** Lines 137-154: the title with the notes' ThunderLinks, and the note block of the others. */
  method MergeNotes(title: string, notes: seq<Note>, header: int -> string) returns (newTitle: string, block: string)
    ensures newTitle == title + ThunderLinks(notes)
    ensures block == NoteBlock(Kept(notes), header)
  {
    var notesByDate;
    newTitle, notesByDate := SortOutNotes(title, notes);
    var keys := SortedKeys(Posted(Kept(notes)));
    block := WriteNoteBlock(keys, notesByDate, header);
  }

  /** Lines 124-187 for one task: the row, with the order counter's value shifted into place. */
  method AssembleRow(index: NoteIndex, listName: string, task: Task, header: int -> string, order: int) returns (row: Row)
    requires PriorityCode(task.priority).Some?
    modifies index
    ensures row == RowOf(listName, task, old(index.NotesOf(task.id)), header, order * OrderStep)
    ensures index.byTask == AfterTask(old(index.byTask), task)
  {
    var taskName := MoveOutlookLink(index, task);
    var notes := index.NotesOf(task.id);
    var title, content := MergeNotes(taskName, notes, header);
    var rrule := ParseRecurrence(task.dateString);
    var priority := PriorityCode(task.priority).value;
    row := Row(listName, title, content, rrule, priority, order * OrderStep);
  }

  /** One more task: its outlook link, if any, is filed after the others'. */
  lemma AfterTasksStep(byTask: map<int, seq<Note>>, tasks: seq<Task>, i: nat)
    requires i < |tasks|
    ensures AfterTasks(byTask, tasks[..i + 1]) == AfterTask(AfterTasks(byTask, tasks[..i]), tasks[i])
    ensures NotesSeen(byTask, tasks)[i] == NotesIn(AfterTasks(byTask, tasks[..i]), tasks[i].id)
  {
    assert tasks[..i + 1][..i] == tasks[..i];
  }

  /** The rows of the first `i` tasks, each with the notes it sees and its order. */
  ghost predicate RowsSoFar(rows: seq<Row>, listName: string, tasks: seq<Task>, seen: seq<seq<Note>>, header: int -> string, i: nat)
    requires i <= |tasks| == |seen|
    requires forall t :: t in tasks ==> PriorityCode(t.priority).Some?
  {
    |rows| == i &&
    forall k :: 0 <= k < i ==> rows[k] == RowOf(listName, tasks[k], seen[k], header, Order(|tasks|, k))
  }

  /** The next row keeps the rows assembled so far. */
  lemma RowsGrow(rows: seq<Row>, row: Row, listName: string, tasks: seq<Task>, seen: seq<seq<Note>>, header: int -> string, i: nat)
    requires i < |tasks| == |seen|
    requires forall t :: t in tasks ==> PriorityCode(t.priority).Some?
    requires RowsSoFar(rows, listName, tasks, seen, header, i)
    requires row == RowOf(listName, tasks[i], seen[i], header, Order(|tasks|, i))
    ensures RowsSoFar(rows + [row], listName, tasks, seen, header, i + 1)
  {
    var rows' := rows + [row];
    forall k | 0 <= k < i + 1
      ensures rows'[k] == RowOf(listName, tasks[k], seen[k], header, Order(|tasks|, k))
    {
      if k < i {
        assert rows'[k] == rows[k];
      } else {
        assert rows'[k] == row;
      }
    }
  }

  /**
   * Lines 120-187: the rows of one project's tasks, in list order, with the
   * order counter starting at `1 - len(tasks)` and going up by one per row.
   */
  method ExportProject(index: NoteIndex, listName: string, tasks: seq<Task>, header: int -> string) returns (rows: seq<Row>)
    requires forall t :: t in tasks ==> PriorityCode(t.priority).Some?
    modifies index
    ensures |rows| == |tasks|
    ensures forall k :: 0 <= k < |tasks| ==>
      rows[k] == RowOf(listName, tasks[k], NotesSeen(old(index.byTask), tasks)[k], header, Order(|tasks|, k))
    ensures index.byTask == AfterTasks(old(index.byTask), tasks)
  {
    hide RowOf, AfterTask, MatchOutlookLink, MatchThunderLink, ParseRecurrence;
    ghost var seen := NotesSeen(index.byTask, tasks);
    ghost var byTask0 := index.byTask;
    rows := [];
    var order := 1 - |tasks|;
    var i := 0;
    while i < |tasks|
      invariant i <= |tasks|
      invariant order == 1 - |tasks| + i
      invariant index.byTask == AfterTasks(byTask0, tasks[..i])
      invariant RowsSoFar(rows, listName, tasks, seen, header, i)
    {
      var task := tasks[i];
      AfterTasksStep(byTask0, tasks, i);
      assert seen[i] == index.NotesOf(task.id);
      assert order * OrderStep == Order(|tasks|, i);
      var row := AssembleRow(index, listName, task, header, order);
      RowsGrow(rows, row, listName, tasks, seen, header, i);
      rows := rows + [row];
      order := order + 1;
      i := i + 1;
    }
    assert tasks[..i] == tasks;
  }
}
