/** Pipeline tasks, the `-S name:path` substitution map, the substitution of a
    built task (`create_task`) and the four-stage chain assembled by `main`. */
module Tasks {
  import opened Wrappers
  import opened Errors
  import Text

  /** A pipeline stage. A real task is opaque here: its class's `task_name`,
      its positional arguments and the upstream tasks it was built from. A
      dummy task stands in for a stage and reports `path` as its output. */
  datatype Task =
    | Real(name: string, args: seq<string>, deps: seq<Task>)
    | Dummy(name: string, path: string)

  /** What `parse_substitute_output` returns: task name to substituting task. */
  type Substitutions = map<string, Task>

  /** Every key is bound to a dummy task registered under that same name. */
  predicate WellFormed(subs: Substitutions)
  {
    forall k :: k in subs ==> subs[k].Dummy? && subs[k].name == k
  }

  /** One `-S` entry: `task_name, output = sub.split(":")`, which succeeds only
      when the split yields exactly two parts. */
  function ParseEntry(entry: string): (r: Result<(string, string), CliError>)
    ensures r.Ok? <==> Text.Count(entry, ':') == 1
    ensures r.Err? ==> r.error == MalformedSubstitution(entry)
    ensures r.Ok? ==> r.value.0 + ":" + r.value.1 == entry
    ensures r.Ok? ==> ':' !in r.value.0 && ':' !in r.value.1
  {
    var parts := Text.Split(entry, ':');
    Text.JoinSplit(entry, ':');
    if |parts| == 2 then Ok((parts[0], parts[1])) else Err(MalformedSubstitution(entry))
  }

  /** Joining a name and a path that contain no colon parses back to them. */
  lemma ParseEntryOfJoined(name: string, path: string)
    requires ':' !in name && ':' !in path
    ensures ParseEntry(name + ":" + path) == Ok((name, path))
  {
    Text.SplitPair(name, path, ':');
  }

  /** The entry parses and names the task `k`. */
  predicate Names(entry: string, k: string)
  {
    ParseEntry(entry).Ok? && ParseEntry(entry).value.0 == k
  }

  /** The entry parses into exactly the pair (`k`, `p`). */
  predicate Registers(entry: string, k: string, p: string)
  {
    ParseEntry(entry) == Ok((k, p))
  }

  /** The loop of `parse_substitute_output` over a list of entries: each entry
      in turn overwrites `res[task_name]`, and the first malformed entry aborts. */
  function ParseAll(entries: seq<string>): (r: Result<Substitutions, CliError>)
    ensures r.Ok? ==> WellFormed(r.value)
    ensures r.Ok? <==> forall i :: 0 <= i < |entries| ==> ParseEntry(entries[i]).Ok?
    ensures r.Ok? ==> |r.value| <= |entries|
  {
    if |entries| == 0 then Ok(map[])
    else
      var m :- ParseAll(entries[..|entries| - 1]);
      var e :- ParseEntry(entries[|entries| - 1]);
      assert |m[e.0 := Dummy(e.0, e.1)].Keys| <= |m.Keys| + 1;
      Ok(m[e.0 := Dummy(e.0, e.1)])
  }

  /** `parse_substitute_output(subs)`: `None` and the empty list both give the empty map. */
  function ParseSubstitutions(subs: Option<seq<string>>): (r: Result<Substitutions, CliError>)
    ensures subs == None || subs == Some([]) ==> r == Ok(map[])
    ensures r.Ok? ==> WellFormed(r.value)
    ensures subs.Some? ==> (r.Ok? <==> forall i :: 0 <= i < |subs.value| ==> Text.Count(subs.value[i], ':') == 1)
  {
    match subs
    case None => ParseAll([])
    case Some(entries) => ParseAll(entries)
  }

  /** The first malformed entry is the one reported. */
  lemma {:induction false} FirstMalformedReported(entries: seq<string>, i: nat)
    requires i < |entries|
    requires ParseEntry(entries[i]).Err?
    requires forall j :: 0 <= j < i ==> ParseEntry(entries[j]).Ok?
    ensures ParseAll(entries) == Err(MalformedSubstitution(entries[i]))
  {
    if i < |entries| - 1 {
      var prefix := entries[..|entries| - 1];
      FirstMalformedReported(prefix, i);
    }
  }

  /** Parsing one more entry binds its name to its path and keeps the rest. */
  lemma ParseAllSnoc(entries: seq<string>)
    requires |entries| > 0 && ParseAll(entries).Ok?
    ensures var e := ParseEntry(entries[|entries| - 1]).value;
      && ParseAll(entries[..|entries| - 1]).Ok?
      && ParseAll(entries).value == ParseAll(entries[..|entries| - 1]).value[e.0 := Dummy(e.0, e.1)]
  {
  }

  /** A name is a key exactly when some entry names it; no check is made
      against the known stage names or against the file system. */
  lemma {:induction false} KeysAreNamedEntries(entries: seq<string>, k: string)
    requires ParseAll(entries).Ok?
    ensures k in ParseAll(entries).value <==> exists i :: 0 <= i < |entries| && Names(entries[i], k)
  {
    if |entries| > 0 {
      var prefix := entries[..|entries| - 1];
      var last := |entries| - 1;
      ParseAllSnoc(entries);
      KeysAreNamedEntries(prefix, k);
      if !Names(entries[last], k) && k !in ParseAll(prefix).value {
        forall i | 0 <= i < |entries|
          ensures !Names(entries[i], k)
        {
          if i < last {
            assert entries[i] == prefix[i];
          }
        }
      } else if !Names(entries[last], k) {
        var i :| 0 <= i < |prefix| && Names(prefix[i], k);
        assert entries[i] == prefix[i];
      }
    }
  }

  /** Last entry wins: the dummy under a name carries the path of the last
      entry naming it. */
  lemma {:induction false} LastEntryWins(entries: seq<string>, k: string)
    requires ParseAll(entries).Ok?
    requires k in ParseAll(entries).value
    ensures exists i :: 0 <= i < |entries| && Registers(entries[i], k, ParseAll(entries).value[k].path)
                        && forall j :: i < j < |entries| ==> !Names(entries[j], k)
  {
    var prefix := entries[..|entries| - 1];
    var last := |entries| - 1;
    var e := ParseEntry(entries[last]).value;
    ParseAllSnoc(entries);
    if e.0 == k {
      assert Registers(entries[last], k, e.1);
    } else {
      var m := ParseAll(prefix).value;
      LastEntryWins(prefix, k);
      var i :| 0 <= i < |prefix| && Registers(prefix[i], k, m[k].path)
               && forall j :: i < j < |prefix| ==> !Names(prefix[j], k);
      assert entries[i] == prefix[i];
      forall j | i < j < |entries|
        ensures !Names(entries[j], k)
      {
        if j < last {
          assert entries[j] == prefix[j];
        }
      }
    }
  }

  /** `create_task`: the built task, or the substitution registered under its
      `task_name` when there is one. */
  function Resolve(subs: Substitutions, built: Task): (r: Task)
    ensures built.name !in subs ==> r == built
    ensures built.name in subs ==> r == subs[built.name]
    ensures WellFormed(subs) ==> r.name == built.name
  {
    if built.name in subs then subs[built.name] else built
  }

  /** Substituting twice changes nothing more than substituting once. */
  lemma ResolveIdempotent(subs: Substitutions, built: Task)
    requires WellFormed(subs)
    ensures Resolve(subs, Resolve(subs, built)) == Resolve(subs, built)
  {
  }

  /** The `task_name`s of the four stage classes, in chain order. */
  datatype StageNames = StageNames(preprocess: string, prodigal: string, hmmer: string, runPhigaro: string)
  {
    function Order(): seq<string>
    {
      [preprocess, prodigal, hmmer, runPhigaro]
    }

    function AsSet(): set<string>
    {
      {preprocess, prodigal, hmmer, runPhigaro}
    }
  }

  /** The chain `main` assembles: preprocess, prodigal, hmmer, run_phigaro. Each
      stage is built from the already-resolved upstream task, which may be a
      dummy; run_phigaro depends on both prodigal and hmmer. */
  function BuildChain(subs: Substitutions, names: StageNames, filename: string): (chain: seq<Task>)
    ensures |chain| == 4
    ensures WellFormed(subs) ==> forall i :: 0 <= i < 4 ==> chain[i].name == names.Order()[i]
    ensures WellFormed(subs) ==> forall i :: 0 <= i < 4 ==> (chain[i].Dummy? <==> names.Order()[i] in subs)
    ensures WellFormed(subs) ==> forall i :: 0 <= i < 4 && names.Order()[i] in subs ==> chain[i] == subs[names.Order()[i]]
    ensures WellFormed(subs) && chain[0].Real? ==> chain[0].deps == [] && chain[0].args == [filename]
    ensures WellFormed(subs) && chain[1].Real? ==> chain[1].deps == [chain[0]] && chain[1].args == []
    ensures WellFormed(subs) && chain[2].Real? ==> chain[2].deps == [chain[1]] && chain[2].args == []
    ensures WellFormed(subs) && chain[3].Real? ==> chain[3].deps == [chain[1], chain[2]] && chain[3].args == []
  {
    var preprocess := Resolve(subs, Real(names.preprocess, [filename], []));
    var prodigal := Resolve(subs, Real(names.prodigal, [], [preprocess]));
    var hmmer := Resolve(subs, Real(names.hmmer, [], [prodigal]));
    var runPhigaro := Resolve(subs, Real(names.runPhigaro, [], [prodigal, hmmer]));
    [preprocess, prodigal, hmmer, runPhigaro]
  }

  /** Every upstream task a real stage was built from is an earlier element of
      the chain, so running the list in order respects the dependencies. */
  lemma DependenciesPrecede(subs: Substitutions, names: StageNames, filename: string)
    requires WellFormed(subs)
    ensures var chain := BuildChain(subs, names, filename);
      forall i, d :: 0 <= i < |chain| && chain[i].Real? && d in chain[i].deps ==>
        exists j :: 0 <= j < i && chain[j] == d
  {
    var chain := BuildChain(subs, names, filename);
    forall i, d | 0 <= i < |chain| && chain[i].Real? && d in chain[i].deps
      ensures exists j :: 0 <= j < i && chain[j] == d
    {
      if i == 1 {
        assert chain[0] == d;
      } else if i == 2 {
        assert chain[1] == d;
      } else if i == 3 {
        assert chain[1] == d || chain[2] == d;
      }
    }
  }

  /** Only the entries named after a stage matter: substitutions for names
      that match no stage leave the chain identical. */
  lemma OnlyStageNamesMatter(subs: Substitutions, names: StageNames, filename: string)
    ensures BuildChain(subs, names, filename)
         == BuildChain(map k | k in subs && k in names.AsSet() :: subs[k], names, filename)
  {
  }

  /** A substitution map that names no stage gives the chain of real tasks. */
  lemma UnmatchedSubstitutionsIgnored(subs: Substitutions, names: StageNames, filename: string)
    requires forall k :: k in subs ==> k !in names.AsSet()
    ensures BuildChain(subs, names, filename) == BuildChain(map[], names, filename)
    ensures forall t :: t in BuildChain(subs, names, filename) ==> t.Real?
  {
    OnlyStageNamesMatter(subs, names, filename);
    assert (map k | k in subs && k in names.AsSet() :: subs[k]) == map[];
  }

  /** When every stage is substituted the chain holds no real task, so nothing
      would run an external program; each stage is the registered dummy. */
  lemma FullySubstitutedChain(subs: Substitutions, names: StageNames, filename: string)
    requires WellFormed(subs)
    requires names.AsSet() <= subs.Keys
    ensures forall i :: 0 <= i < 4 ==> BuildChain(subs, names, filename)[i] == subs[names.Order()[i]]
    ensures forall t :: t in BuildChain(subs, names, filename) ==> t.Dummy?
  {
  }
}
