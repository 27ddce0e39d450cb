/**
 * `search_keywords_in_emails`: walks the corpus directory, creates one
 * processor per file (`.eml` files are searched as messages, every other file
 * through `process_file`) and waits for them directory by directory.
 *
 * The directory walk itself is input: a sequence of `Dir` values, one per
 * `(root, dirs, files)` triple that `os.walk` yields, in the order it yields
 * them.
 */
module Walker {
  import opened Text
  import opened Paths
  import opened Parts
  import opened Processor

  /** One step of the walk: a directory and the names of the files in it. */
  datatype Dir = Dir(root: string, names: seq<string>)

  /** One file met during the walk, before its path is built. */
  datatype Entry = Entry(root: string, name: string)

  /** The processor call scheduled for a file. */
  datatype Task = EmailTask(path: string) | FileTask(path: string)

  function EntryPath(e: Entry): string {
    Join(e.root, e.name)
  }

  /** `.eml` files are processed as messages; everything else as a plain file. */
  function TaskOf(e: Entry): (t: Task)
    ensures t.path == EntryPath(e)
    ensures t.EmailTask? <==> EndsWith(e.name, ".eml")
  {
    if EndsWith(e.name, ".eml") then EmailTask(EntryPath(e)) else FileTask(EntryPath(e))
  }

  /** The files of one directory, in listing order. */
  function DirEntries(root: string, names: seq<string>): (r: seq<Entry>)
    ensures |r| == |names|
    ensures forall j :: 0 <= j < |names| ==> r[j] == Entry(root, names[j])
  {
    if names == [] then []
    else DirEntries(root, names[..|names| - 1]) + [Entry(root, names[|names| - 1])]
  }

  /** Every file of the walk, directory after directory. */
  function Entries(walk: seq<Dir>): seq<Entry> {
    if walk == [] then []
    else Entries(walk[..|walk| - 1]) + DirEntries(walk[|walk| - 1].root, walk[|walk| - 1].names)
  }

  function PathsOf(tasks: seq<Task>): set<string> {
    if tasks == [] then {} else PathsOf(tasks[..|tasks| - 1]) + {tasks[|tasks| - 1].path}
  }

  function EntryPaths(es: seq<Entry>): set<string> {
    if es == [] then {} else EntryPaths(es[..|es| - 1]) + {EntryPath(es[|es| - 1])}
  }

  /** The tasks created, in creation order: a path already in `processed_files`
      gets no second task. */
  function Scheduled(es: seq<Entry>): seq<Task> {
    if es == [] then []
    else
      var before := Scheduled(es[..|es| - 1]);
      var e := es[|es| - 1];
      if EntryPath(e) in PathsOf(before) then before else before + [TaskOf(e)]
  }

  /** One task run by a fresh processor: `process_email` for a message,
      `process_file` for anything else. */
  function RunTask(task: Task, keywords: seq<string>, outputFolder: string, saveAttachments: bool,
                   env: Env, st: Store): Store
  {
    if task.EmailTask? then EmailEffect(task.path, keywords, outputFolder, saveAttachments, env, st)
    else FileEffect(task.path, keywords, env, st)
  }

  /** `RunTask` with the settings of one search fixed. */
  function Runner(keywords: seq<string>, outputFolder: string, saveAttachments: bool, env: Env): (Task, Store) -> Store {
    (task: Task, st: Store) => RunTask(task, keywords, outputFolder, saveAttachments, env, st)
  }

  /** The effect of running the tasks one after another, each by `step`. */
  function RunEffect(tasks: seq<Task>, step: (Task, Store) -> Store, st: Store): Store {
    if tasks == [] then st
    else step(tasks[|tasks| - 1], RunEffect(tasks[..|tasks| - 1], step, st))
  }

  /** The whole call: the output folder is created, then every scheduled task runs. */
  function SearchEffect(walk: seq<Dir>, keywords: seq<string>, outputFolder: string, saveAttachments: bool,
                        env: Env, st: Store): Store
  {
    RunEffect(Scheduled(Entries(walk)), Runner(keywords, outputFolder, saveAttachments, env),
              st.(dirs := st.dirs + {outputFolder}))
  }

  lemma {:induction false} PathsOfMembers(tasks: seq<Task>)
    ensures forall j :: 0 <= j < |tasks| ==> tasks[j].path in PathsOf(tasks)
    ensures forall p :: p in PathsOf(tasks) ==> exists j :: 0 <= j < |tasks| && tasks[j].path == p
  {
    if tasks != [] {
      var init := tasks[..|tasks| - 1];
      PathsOfMembers(init);
      forall p | p in PathsOf(tasks) ensures exists j :: 0 <= j < |tasks| && tasks[j].path == p {
        if p in PathsOf(init) {
          var j :| 0 <= j < |init| && init[j].path == p;
          assert tasks[j].path == p;
        } else {
          assert tasks[|tasks| - 1].path == p;
        }
      }
    }
  }

  /** Every file met is covered: the paths given a task are exactly the paths
      of the walk's files. */
  lemma {:induction false} ScheduledCovers(es: seq<Entry>)
    ensures PathsOf(Scheduled(es)) == EntryPaths(es)
  {
    if es != [] {
      var init := es[..|es| - 1];
      ScheduledCovers(init);
      var before := Scheduled(init);
      var e := es[|es| - 1];
      if EntryPath(e) !in PathsOf(before) {
        assert (before + [TaskOf(e)])[..|before|] == before;
      }
    }
  }

  predicate DistinctPaths(tasks: seq<Task>) {
    forall i, j :: 0 <= i < j < |tasks| ==> tasks[i].path != tasks[j].path
  }

  /** No file is processed twice. */
  lemma {:induction false} ScheduledDistinct(es: seq<Entry>)
    ensures DistinctPaths(Scheduled(es))
  {
    if es != [] {
      var init := es[..|es| - 1];
      ScheduledDistinct(init);
      var before := Scheduled(init);
      var e := es[|es| - 1];
      if EntryPath(e) !in PathsOf(before) {
        PathsOfMembers(before);
        var after := before + [TaskOf(e)];
        forall i, j | 0 <= i < j < |after| ensures after[i].path != after[j].path {
          if j == |before| {
            assert before[i].path in PathsOf(before);
          } else {
            assert after[i] == before[i] && after[j] == before[j];
          }
        }
      }
    }
  }

  predicate FromEntry(t: Task, es: seq<Entry>) {
    exists j :: 0 <= j < |es| && TaskOf(es[j]) == t
  }

  /** Every task is the one `TaskOf` gives for some file of the walk, so its
      kind is decided by that file's name. */
  lemma {:induction false} ScheduledFromEntries(es: seq<Entry>)
    ensures forall i :: 0 <= i < |Scheduled(es)| ==> FromEntry(Scheduled(es)[i], es)
  {
    if es != [] {
      var init := es[..|es| - 1];
      ScheduledFromEntries(init);
      var before := Scheduled(init);
      var e := es[|es| - 1];
      var after := Scheduled(es);
      forall i | 0 <= i < |after| ensures FromEntry(after[i], es) {
        if i < |before| {
          assert after[i] == before[i];
          var j :| 0 <= j < |init| && TaskOf(init[j]) == before[i];
          assert es[j] == init[j];
        } else {
          assert after[i] == TaskOf(es[|es| - 1]);
        }
      }
    }
  }

  lemma {:induction false} NotInPaths(tasks: seq<Task>, p: string)
    requires forall j :: 0 <= j < |tasks| ==> tasks[j].path != p
    ensures p !in PathsOf(tasks)
  {
    if tasks != [] {
      NotInPaths(tasks[..|tasks| - 1], p);
    }
  }

  lemma {:induction false} DistinctCount(tasks: seq<Task>)
    requires DistinctPaths(tasks)
    ensures |PathsOf(tasks)| == |tasks|
  {
    if tasks != [] {
      var init := tasks[..|tasks| - 1];
      DistinctCount(init);
      var last := tasks[|tasks| - 1];
      forall j | 0 <= j < |init| ensures init[j].path != last.path {
        assert init[j] == tasks[j];
      }
      NotInPaths(init, last.path);
    }
  }

  /** The count printed at the end is the number of distinct file paths the
      walk yields, and equals the number of tasks run. */
  lemma ProcessedCount(es: seq<Entry>)
    ensures |EntryPaths(es)| == |Scheduled(es)|
  {
    ScheduledCovers(es);
    ScheduledDistinct(es);
    DistinctCount(Scheduled(es));
  }

  /** Running `a` and then `b` is running `a + b`. */
  lemma {:induction false} RunConcat(a: seq<Task>, b: seq<Task>, step: (Task, Store) -> Store, st: Store)
    ensures RunEffect(a + b, step, st) == RunEffect(b, step, RunEffect(a, step, st))
  {
    if b == [] {
      assert a + b == a;
    } else {
      var b', x := b[..|b| - 1], b[|b| - 1];
      RunConcat(a, b', step, st);
      assert (a + b)[..|a + b| - 1] == a + b';
    }
  }

  /** Processing never removes anything from the logs or the output area. */
  lemma {:induction false} RunExtends(tasks: seq<Task>, keywords: seq<string>, outputFolder: string,
                                      save: bool, env: Env, st: Store)
    ensures Extends(st, RunEffect(tasks, Runner(keywords, outputFolder, save, env), st))
  {
    if tasks != [] {
      var init := tasks[..|tasks| - 1];
      var before := RunEffect(init, Runner(keywords, outputFolder, save, env), st);
      RunExtends(init, keywords, outputFolder, save, env, st);
      var task := tasks[|tasks| - 1];
      if task.EmailTask? {
        EmailEffectExtends(task.path, keywords, outputFolder, save, env, before);
        ExtendsTransitive(st, before, EmailEffect(task.path, keywords, outputFolder, save, env, before));
      } else {
        FileOutcome(task.path, keywords, env, before);
        ExtendsTransitive(st, before, FileEffect(task.path, keywords, env, before));
      }
    }
  }

  /** What a task writes does not depend on what was written before it. */
  lemma RunTaskDelta(task: Task, keywords: seq<string>, outputFolder: string, save: bool, env: Env, st: Store)
    ensures RunTask(task, keywords, outputFolder, save, env, st) ==
            Grow(st, RunTask(task, keywords, outputFolder, save, env, Empty))
  {
    if task.EmailTask? {
      EmailDelta(task.path, keywords, outputFolder, save, env, st);
    } else {
      FileDelta(task.path, keywords, env, st);
    }
  }

  /** One file leaves the others unaffected: whatever the tasks before it
      wrote, a task adds what it would add on its own. */
  lemma TaskIsolated(tasks: seq<Task>, task: Task, keywords: seq<string>, outputFolder: string, save: bool,
                     env: Env, st: Store)
    ensures var run := Runner(keywords, outputFolder, save, env);
      RunEffect(tasks + [task], run, st) ==
      Grow(RunEffect(tasks, run, st), RunTask(task, keywords, outputFolder, save, env, Empty))
  {
    var run := Runner(keywords, outputFolder, save, env);
    RunStep(tasks, task, run, st);
    RunTaskDelta(task, keywords, outputFolder, save, env, RunEffect(tasks, run, st));
  }

  /** The output folder exists afterwards and nothing earlier is lost. */
  lemma SearchKeepsOutput(walk: seq<Dir>, keywords: seq<string>, outputFolder: string, save: bool,
                          env: Env, st: Store)
    ensures var st' := SearchEffect(walk, keywords, outputFolder, save, env, st);
      outputFolder in st'.dirs && Extends(st, st')
  {
    var st0 := st.(dirs := st.dirs + {outputFolder});
    RunExtends(Scheduled(Entries(walk)), keywords, outputFolder, save, env, st0);
  }

  lemma EntriesStep(walk: seq<Dir>, d: nat)
    requires d < |walk|
    ensures Entries(walk[..d + 1]) == Entries(walk[..d]) + DirEntries(walk[d].root, walk[d].names)
  {
    assert walk[..d + 1][..d] == walk[..d];
  }

  lemma ScheduledStep(es: seq<Entry>, e: Entry)
    ensures Scheduled(es + [e]) ==
      if EntryPath(e) in PathsOf(Scheduled(es)) then Scheduled(es) else Scheduled(es) + [TaskOf(e)]
  {
    assert (es + [e])[..|es|] == es;
  }

  lemma PathsOfStep(tasks: seq<Task>, t: Task)
    ensures PathsOf(tasks + [t]) == PathsOf(tasks) + {t.path}
  {
    assert (tasks + [t])[..|tasks|] == tasks;
  }

  lemma RunStep(tasks: seq<Task>, t: Task, step: (Task, Store) -> Store, st: Store)
    ensures RunEffect(tasks + [t], step, st) == step(t, RunEffect(tasks, step, st))
  {
    assert (tasks + [t])[..|tasks|] == tasks;
  }

  /** The inner loop over one directory's files: a task is created, and its
      path recorded in `processed_files`, for each path not seen before. */
  method ScheduleDir(ghost es: seq<Entry>, ghost tasks: seq<Task>, processed: set<string>, dir: Dir)
    returns (created: seq<Task>, processed': set<string>)
    requires tasks == Scheduled(es) && processed == PathsOf(tasks)
    ensures tasks + created == Scheduled(es + DirEntries(dir.root, dir.names))
    ensures processed' == PathsOf(tasks + created)
  {
    created, processed' := [], processed;
    ghost var seen := es;
    ghost var all := tasks;
    var j := 0;
    assert DirEntries(dir.root, dir.names[..0]) == [];
    assert es + [] == es;
    assert tasks + [] == tasks;
    while j < |dir.names|
      invariant 0 <= j <= |dir.names|
      invariant seen == es + DirEntries(dir.root, dir.names[..j])
      invariant all == tasks + created
      invariant all == Scheduled(seen)
      invariant processed' == PathsOf(all)
    {
      var e := Entry(dir.root, dir.names[j]);
      DirEntriesStep(es, dir, j);
      ScheduledStep(seen, e);
      var filePath := Join(dir.root, dir.names[j]);
      if filePath !in processed' {
        var task := if EndsWith(dir.names[j], ".eml") then EmailTask(filePath) else FileTask(filePath);
        PathsOfStep(all, task);
        AppendAssoc(tasks, created, task);
        created := created + [task];
        processed' := processed' + {filePath};
        all := all + [task];
      }
      seen := seen + [e];
      j := j + 1;
    }
    assert dir.names[..|dir.names|] == dir.names;
  }

  lemma DirEntriesStep(es: seq<Entry>, dir: Dir, j: nat)
    requires j < |dir.names|
    ensures es + DirEntries(dir.root, dir.names[..j + 1]) ==
            (es + DirEntries(dir.root, dir.names[..j])) + [Entry(dir.root, dir.names[j])]
  {
    assert dir.names[..j + 1][..j] == dir.names[..j];
  }

  /** Kept as a lemma: as an inline assertion it makes the loop above
      needlessly expensive. */
  lemma AppendAssoc(tasks: seq<Task>, created: seq<Task>, task: Task)
    ensures tasks + (created + [task]) == (tasks + created) + [task]
  {
  }

  /** `asyncio.gather` over the tasks created for one directory: each task
      constructs its processor and runs `process_email` or `process_file`. */
  method Gather(tasks: seq<Task>, keywords: seq<string>, outputFolder: string, saveAttachments: bool,
                env: Env, sink: Sink)
    modifies sink
    ensures sink.State() == RunEffect(tasks, Runner(keywords, outputFolder, saveAttachments, env), old(sink.State()))
  {
    var k := 0;
    assert tasks[..0] == [];
    while k < |tasks|
      invariant 0 <= k <= |tasks|
      invariant sink.State() == RunEffect(tasks[..k], Runner(keywords, outputFolder, saveAttachments, env), old(sink.State()))
    {
      var task := tasks[k];
      var processor := new EmailProcessor(task.path, sink, keywords, outputFolder, env);
      if task.EmailTask? {
        processor.ProcessEmail(outputFolder, saveAttachments);
      } else {
        processor.ProcessFile(task.path);
      }
      RunStep(tasks[..k], task, Runner(keywords, outputFolder, saveAttachments, env), old(sink.State()));
      assert tasks[..k + 1] == tasks[..k] + [task];
      k := k + 1;
    }
    assert tasks[..|tasks|] == tasks;
  }

  /** `search_keywords_in_emails`. The tasks created in a directory start
      running at that directory's `gather`; tasks of earlier directories have
      finished by then. The result is the number of files processed. */
  method SearchKeywordsInEmails(walk: seq<Dir>, keywords: seq<string>, outputFolder: string,
                                saveAttachments: bool, env: Env, sink: Sink) returns (count: nat)
    modifies sink
    ensures sink.State() == SearchEffect(walk, keywords, outputFolder, saveAttachments, env, old(sink.State()))
    ensures count == |EntryPaths(Entries(walk))|
  {
    var processed: set<string> := {};
    sink.MakeDirs(outputFolder);
    ghost var st0 := sink.State();
    ghost var tasks: seq<Task> := [];
    var d := 0;
    while d < |walk|
      invariant 0 <= d <= |walk|
      invariant tasks == Scheduled(Entries(walk[..d]))
      invariant processed == PathsOf(tasks)
      invariant sink.State() == RunEffect(tasks, Runner(keywords, outputFolder, saveAttachments, env), st0)
    {
      var created;
      created, processed := ScheduleDir(Entries(walk[..d]), tasks, processed, walk[d]);
      EntriesStep(walk, d);
      Gather(created, keywords, outputFolder, saveAttachments, env, sink);
      RunConcat(tasks, created, Runner(keywords, outputFolder, saveAttachments, env), st0);
      tasks := tasks + created;
      d := d + 1;
    }
    assert walk[..|walk|] == walk;
    ScheduledCovers(Entries(walk));
    count := |processed|;
  }
}
