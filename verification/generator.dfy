/**
 * Generating a repository from a template: the folder named after the
 * application, the Terraform facet rendered into `Terraform_Configuration`
 * and `Terraform_Variables`, and the Jenkins facet copied verbatim.
 *
 * Each operation is its ordered list of filesystem calls (its plan) run
 * against a filesystem. A facet whose validity flag is false contributes
 * no call at all.
 */
module Generator {
  import opened Os
  import opened Templates
  import Naming

  const TerraformConfigurationDir := "Terraform_Configuration"
  const TerraformVariablesDir := "Terraform_Variables"
  const TfvarsSuffix := ".tfvars"

  /** `env + ".tfvars"` */
  function TfvarsFile(env: string): string {
    env + TfvarsSuffix
  }

  /** The template file jinja2 loads as `<templateName>/terraform/<file>`. */
  function TerraformSource(t: TerraformTemplate, file: string): Path {
    t.loaderRoot + [t.templateName, TerraformDir, file]
  }

  /** `<dest>/Terraform_Configuration/<file>` */
  function ConfigurationPath(dest: Path, file: string): Path {
    dest + [TerraformConfigurationDir, file]
  }

  /** `<dest>/Terraform_Variables/<env>.tfvars` */
  function VariablesPath(dest: Path, env: string): Path {
    dest + [TerraformVariablesDir, TfvarsFile(env)]
  }

  /** One variables file per environment, in the order of `environments`. */
  function VariablesPaths(dest: Path, environments: seq<string>): seq<Path> {
    seq(|environments|, i requires 0 <= i < |environments| => VariablesPath(dest, environments[i]))
  }

  /** The two folders and the two shared configuration files. */
  function TerraformHead(t: TerraformTemplate, dest: Path): seq<Action> {
    [ MakeDirs(dest + [TerraformConfigurationDir]),
      Render(TerraformSource(t, MainTf), ConfigurationPath(dest, MainTf)),
      Render(TerraformSource(t, VariablesTf), ConfigurationPath(dest, VariablesTf)),
      MakeDirs(dest + [TerraformVariablesDir]) ]
  }

  /** The calls of `generate_terraform_configuration(dest, environments)`. */
  function TerraformPlan(t: TerraformTemplate, dest: Path, environments: seq<string>): seq<Action> {
    TerraformHead(t, dest)
    + RendersFrom(TerraformSource(t, EnvironmentTfvars), VariablesPaths(dest, environments))
  }

  function GenerateTerraformConfiguration(
    fs: FileSystem, t: TerraformTemplate, dest: Path, environments: seq<string>, render: string -> string): Outcome
  {
    Run(fs, TerraformPlan(t, dest, environments), render)
  }

  /** The pipeline definition the Jenkins facet copies. */
  function JenkinsSource(t: JenkinsTemplate): Path {
    t.templatePath + [Jenkinsfile]
  }

  /** The call of `generate_jenkins_configuration(dest)`. */
  function JenkinsPlan(t: JenkinsTemplate, dest: Path): seq<Action> {
    [Copy(JenkinsSource(t), dest + [Jenkinsfile])]
  }

  function GenerateJenkinsConfiguration(fs: FileSystem, t: JenkinsTemplate, dest: Path, render: string -> string): Outcome {
    Run(fs, JenkinsPlan(t, dest), render)
  }

  /** `<target>/<repository name>` */
  function RepositoryPath(target: Path, applicationId: string, applicationName: string, componentName: string): Path {
    target + [Naming.RepositoryName(applicationId, applicationName, componentName)]
  }

  /**
   * The calls of `generate_repository`: create the folder, then the Terraform
   * facet if it is valid, then the Jenkins facet if it is valid. The README
   * and git placeholders make no call.
   */
  function RepositoryPlan(rt: RepositoryTemplate, dest: Path, environments: seq<string>): seq<Action> {
    [MakeDirs(dest)] + TerraformFacetPlan(rt, dest, environments) + JenkinsFacetPlan(rt, dest)
  }

  function TerraformFacetPlan(rt: RepositoryTemplate, dest: Path, environments: seq<string>): seq<Action> {
    if rt.terraform.valid then TerraformPlan(rt.terraform, dest, environments) else []
  }

  function JenkinsFacetPlan(rt: RepositoryTemplate, dest: Path): seq<Action> {
    if rt.jenkins.valid then JenkinsPlan(rt.jenkins, dest) else []
  }

  function GenerateRepository(
    fs: FileSystem, rt: RepositoryTemplate, target: Path,
    applicationId: string, applicationName: string, componentName: string,
    environments: seq<string>, render: string -> string): Outcome
  {
    Run(fs, RepositoryPlan(rt, RepositoryPath(target, applicationId, applicationName, componentName), environments), render)
  }

  // ---------------------------------------------------------------------
  // The order of the writes

  /** The paths handed to `open` or `shutil.copy`, in call order. */
  function Writes(actions: seq<Action>): seq<Path> {
    if actions == [] then []
    else
      (match actions[0]
       case MakeDirs(_) => []
       case Render(_, target) => [target]
       case Copy(_, target) => [target])
      + Writes(actions[1..])
  }

  lemma {:induction false} WritesAppend(a: seq<Action>, b: seq<Action>)
    ensures Writes(a + b) == Writes(a) + Writes(b)
    decreases |a|
  {
    if a == [] {
      assert a + b == b;
    } else {
      assert (a + b)[0] == a[0];
      assert (a + b)[1..] == a[1..] + b;
      WritesAppend(a[1..], b);
    }
  }

  lemma {:induction false} WritesOfRenders(template: Path, targets: seq<Path>)
    ensures Writes(RendersFrom(template, targets)) == targets
    decreases |targets|
  {
    if targets != [] {
      assert RendersFrom(template, targets)[1..] == RendersFrom(template, targets[1..]);
      WritesOfRenders(template, targets[1..]);
    }
  }

  /**
   * The Terraform step writes `main.tf`, then `variables.tf`, then one
   * `.tfvars` file per environment in list order: `2 + |environments|` writes.
   */
  lemma TerraformWriteOrder(t: TerraformTemplate, dest: Path, environments: seq<string>)
    ensures Writes(TerraformPlan(t, dest, environments))
         == [ConfigurationPath(dest, MainTf), ConfigurationPath(dest, VariablesTf)]
            + VariablesPaths(dest, environments)
    ensures |Writes(TerraformPlan(t, dest, environments))| == 2 + |environments|
  {
    var head := TerraformHead(t, dest);
    var tail := RendersFrom(TerraformSource(t, EnvironmentTfvars), VariablesPaths(dest, environments));
    WritesAppend(head, tail);
    WritesOfRenders(TerraformSource(t, EnvironmentTfvars), VariablesPaths(dest, environments));
    assert Writes(head[3..]) == [] by {
      assert head[3..][1..] == [];
    }
    assert Writes(head[2..]) == [ConfigurationPath(dest, VariablesTf)] by {
      assert head[2..][1..] == head[3..];
    }
    assert Writes(head[1..]) == [ConfigurationPath(dest, MainTf), ConfigurationPath(dest, VariablesTf)] by {
      assert head[1..][1..] == head[2..];
    }
  }

  /**
   * A whole generation writes the Terraform files first, in their own order,
   * and the Jenkinsfile last; an invalid facet writes nothing.
   */
  lemma RepositoryWriteOrder(rt: RepositoryTemplate, dest: Path, environments: seq<string>)
    ensures Writes(RepositoryPlan(rt, dest, environments))
         == (if rt.terraform.valid
             then [ConfigurationPath(dest, MainTf), ConfigurationPath(dest, VariablesTf)] + VariablesPaths(dest, environments)
             else [])
            + (if rt.jenkins.valid then [dest + [Jenkinsfile]] else [])
  {
    var folder := [MakeDirs(dest)];
    var tfPlan, jkPlan := TerraformFacetPlan(rt, dest, environments), JenkinsFacetPlan(rt, dest);
    WritesAppend(folder + tfPlan, jkPlan);
    WritesAppend(folder, tfPlan);
    assert Writes(folder) == [] by {
      assert folder[1..] == [];
    }
    if rt.terraform.valid {
      TerraformWriteOrder(rt.terraform, dest, environments);
    }
    if rt.jenkins.valid {
      assert jkPlan[1..] == [];
    }
  }

  // ---------------------------------------------------------------------
  // Which paths can coincide

  /** Two environments name the same variables file only if they are the same name. */
  lemma TfvarsFileInjective(a: string, b: string)
    ensures TfvarsFile(a) == TfvarsFile(b) <==> a == b
  {
    if TfvarsFile(a) == TfvarsFile(b) {
      assert a == TfvarsFile(a)[..|a|];
    }
  }

  /** Paths whose second-to-last segments differ are different. */
  lemma ParentSegmentsDiffer(p: Path, q: Path, x: string, y: string, u: string, v: string)
    requires x != y
    ensures p + [x, u] != q + [y, v]
  {
    if |p| == |q| {
      assert (p + [x, u])[|p|] == x;
      assert (q + [y, v])[|q|] == y;
    }
  }

  /** The distinct files the Terraform step writes. */
  function TerraformOutputPaths(dest: Path, environments: seq<string>): set<Path> {
    {ConfigurationPath(dest, MainTf), ConfigurationPath(dest, VariablesTf)}
    + (set p | p in VariablesPaths(dest, environments))
  }

  /** An environment's variables file is among those of a list exactly when the environment is in the list. */
  lemma VariablesPathIn(dest: Path, environments: seq<string>, env: string)
    ensures VariablesPath(dest, env) in VariablesPaths(dest, environments) <==> env in environments
  {
    if env in environments {
      var k :| 0 <= k < |environments| && environments[k] == env;
      assert VariablesPaths(dest, environments)[k] == VariablesPath(dest, env);
    }
    if VariablesPath(dest, env) in VariablesPaths(dest, environments) {
      var k :| 0 <= k < |environments| && VariablesPaths(dest, environments)[k] == VariablesPath(dest, env);
      assert VariablesPath(dest, environments[k])[|dest| + 1] == TfvarsFile(env);
      TfvarsFileInjective(environments[k], env);
    }
  }

  lemma VariablesPathsCons(dest: Path, environments: seq<string>)
    requires environments != []
    ensures (set p | p in VariablesPaths(dest, environments))
         == (set p | p in VariablesPaths(dest, environments[1..])) + {VariablesPath(dest, environments[0])}
    ensures (set e | e in environments) == (set e | e in environments[1..]) + {environments[0]}
  {
    assert VariablesPaths(dest, environments) == [VariablesPath(dest, environments[0])] + VariablesPaths(dest, environments[1..]);
    assert forall e :: e in environments <==> e == environments[0] || e in environments[1..];
  }

  lemma {:induction false} VariablesPathsCount(dest: Path, environments: seq<string>)
    ensures |set p | p in VariablesPaths(dest, environments)| == |set e | e in environments|
    decreases |environments|
  {
    if environments != [] {
      var first, rest := environments[0], environments[1..];
      VariablesPathsCount(dest, rest);
      VariablesPathsCons(dest, environments);
      VariablesPathIn(dest, rest, first);
      var names := set e | e in rest;
      var paths := set p | p in VariablesPaths(dest, rest);
      if first in rest {
        assert names + {first} == names;
        assert paths + {VariablesPath(dest, first)} == paths;
      } else {
        assert |names + {first}| == |names| + 1;
        assert |paths + {VariablesPath(dest, first)}| == |paths| + 1;
      }
    }
  }

  /** The Terraform step may write exactly its output files. */
  lemma TerraformTouches(t: TerraformTemplate, dest: Path, environments: seq<string>)
    ensures Touched(TerraformPlan(t, dest, environments)) == TerraformOutputPaths(dest, environments)
    ensures Created(TerraformPlan(t, dest, environments))
         == Ancestry(dest + [TerraformConfigurationDir]) + Ancestry(dest + [TerraformVariablesDir])
  {
    var main, vars := ConfigurationPath(dest, MainTf), ConfigurationPath(dest, VariablesTf);
    var head := TerraformHead(t, dest);
    var tail := RendersFrom(TerraformSource(t, EnvironmentTfvars), VariablesPaths(dest, environments));
    TouchedAppend(head, tail);
    TouchedByRenders(TerraformSource(t, EnvironmentTfvars), VariablesPaths(dest, environments));
    assert Touched(head[3..]) == {} && Created(head[3..]) == Ancestry(dest + [TerraformVariablesDir]) by {
      assert head[3..][1..] == [];
    }
    assert Touched(head[2..]) == {vars} && Created(head[2..]) == Ancestry(dest + [TerraformVariablesDir]) by {
      assert head[2..][1..] == head[3..];
    }
    assert Touched(head[1..]) == {main, vars} && Created(head[1..]) == Ancestry(dest + [TerraformVariablesDir]) by {
      assert head[1..][1..] == head[2..];
    }
  }

  /**
   * There are `2 + |distinct environments|` output files: a repeated
   * environment writes the same file again.
   */
  lemma TerraformDistinctFiles(dest: Path, environments: seq<string>)
    ensures |TerraformOutputPaths(dest, environments)| == 2 + |set e | e in environments|
  {
    var main, vars := ConfigurationPath(dest, MainTf), ConfigurationPath(dest, VariablesTf);
    var envPaths := set p | p in VariablesPaths(dest, environments);
    VariablesPathsCount(dest, environments);
    assert main != vars by {
      assert main[|dest| + 1] == MainTf;
      assert vars[|dest| + 1] == VariablesTf;
    }
    forall p | p in envPaths
      ensures p != main && p != vars
    {
      var k :| 0 <= k < |environments| && p == VariablesPaths(dest, environments)[k];
      ParentSegmentsDiffer(dest, dest, TerraformVariablesDir, TerraformConfigurationDir, TfvarsFile(environments[k]), MainTf);
      ParentSegmentsDiffer(dest, dest, TerraformVariablesDir, TerraformConfigurationDir, TfvarsFile(environments[k]), VariablesTf);
    }
    assert {main, vars} !! envPaths;
    assert |{main, vars}| == 2;
  }

  // ---------------------------------------------------------------------
  // What the Terraform step leaves on disk

  /** The three template files of the Terraform facet, as jinja2 loads them. */
  function TerraformSources(t: TerraformTemplate): set<Path> {
    {TerraformSource(t, EnvironmentTfvars), TerraformSource(t, MainTf), TerraformSource(t, VariablesTf)}
  }

  /**
   * The contents of the Terraform outputs: each configuration file holds the
   * render of its template, and every variables file the render of
   * `environment.tfvars`; no environment data reaches the render.
   */
  function TerraformOutputs(
    fs: FileSystem, t: TerraformTemplate, dest: Path, environments: seq<string>, render: string -> string): map<Path, string>
    requires TerraformSources(t) <= fs.files.Keys
  {
    map[ConfigurationPath(dest, MainTf) := render(fs.files[TerraformSource(t, MainTf)]),
        ConfigurationPath(dest, VariablesTf) := render(fs.files[TerraformSource(t, VariablesTf)])]
    + map p | p in VariablesPaths(dest, environments) :: render(fs.files[TerraformSource(t, EnvironmentTfvars)])
  }

  /**
   * A filesystem on which the Terraform step runs to completion: the
   * destination is a directory, neither output folder is a regular file, no
   * output file is a directory, and the three templates are present.
   */
  ghost predicate TerraformReady(fs: FileSystem, t: TerraformTemplate, dest: Path, environments: seq<string>) {
    && WellFormed(fs)
    && IsDir(fs, dest)
    && !IsFile(fs, dest + [TerraformConfigurationDir])
    && !IsFile(fs, dest + [TerraformVariablesDir])
    && (forall p :: p in TerraformOutputPaths(dest, environments) ==> !IsDir(fs, p))
    && TerraformSources(t) <= fs.files.Keys
  }

  /** No template file is an output file: their parent folders have different names. */
  lemma SourceIsNotOutput(t: TerraformTemplate, file: string, dest: Path, environments: seq<string>)
    ensures TerraformSource(t, file) !in TerraformOutputPaths(dest, environments)
  {
    var root := t.loaderRoot + [t.templateName];
    assert TerraformSource(t, file) == root + [TerraformDir, file];
    ParentSegmentsDiffer(root, dest, TerraformDir, TerraformConfigurationDir, file, MainTf);
    ParentSegmentsDiffer(root, dest, TerraformDir, TerraformConfigurationDir, file, VariablesTf);
    forall k | 0 <= k < |environments|
      ensures VariablesPaths(dest, environments)[k] != TerraformSource(t, file)
    {
      ParentSegmentsDiffer(root, dest, TerraformDir, TerraformVariablesDir, file, TfvarsFile(environments[k]));
    }
  }

  lemma SourcesAreNotOutputs(t: TerraformTemplate, dest: Path, environments: seq<string>)
    ensures TerraformSources(t) !! TerraformOutputPaths(dest, environments)
  {
    SourceIsNotOutput(t, EnvironmentTfvars, dest, environments);
    SourceIsNotOutput(t, MainTf, dest, environments);
    SourceIsNotOutput(t, VariablesTf, dest, environments);
  }

  /** The facts about a ready filesystem that the Terraform step relies on. */
  lemma TerraformReadyFacts(fs: FileSystem, t: TerraformTemplate, dest: Path, environments: seq<string>)
    requires TerraformReady(fs, t, dest, environments)
    ensures Ancestry(dest) <= fs.dirs && Ancestry(dest) !! fs.files.Keys
    ensures !IsDir(fs, ConfigurationPath(dest, MainTf)) && !IsDir(fs, ConfigurationPath(dest, VariablesTf))
    ensures forall p :: p in VariablesPaths(dest, environments) ==> !IsDir(fs, p)
    ensures TerraformSource(t, MainTf) in fs.files && TerraformSource(t, VariablesTf) in fs.files
    ensures TerraformSource(t, EnvironmentTfvars) in fs.files
    ensures TerraformSource(t, EnvironmentTfvars) !in VariablesPaths(dest, environments)
  {
    WellFormedAncestors(fs, dest);
    assert ConfigurationPath(dest, MainTf) in TerraformOutputPaths(dest, environments);
    assert ConfigurationPath(dest, VariablesTf) in TerraformOutputPaths(dest, environments);
    assert TerraformSource(t, MainTf) in TerraformSources(t);
    assert TerraformSource(t, VariablesTf) in TerraformSources(t);
    assert TerraformSource(t, EnvironmentTfvars) in TerraformSources(t);
    SourceIsNotOutput(t, EnvironmentTfvars, dest, environments);
  }

  /** `variables.tf`, then the `Terraform_Variables` folder. */
  lemma TerraformHeadLast(fs: FileSystem, t: TerraformTemplate, dest: Path, render: string -> string)
    requires Ancestry(dest) <= fs.dirs && Ancestry(dest) !! fs.files.Keys
    requires ConfigurationPath(dest, MainTf) !in Ancestry(dest)
    requires dest + [TerraformConfigurationDir] in fs.dirs && !IsFile(fs, dest + [TerraformVariablesDir])
    requires !IsDir(fs, ConfigurationPath(dest, VariablesTf))
    requires TerraformSource(t, VariablesTf) in fs.files
    ensures Run(fs, TerraformHead(t, dest)[2..], render)
            == Completed(FileSystem(
                 fs.files[ConfigurationPath(dest, VariablesTf) := render(fs.files[TerraformSource(t, VariablesTf)])],
                 fs.dirs + {dest + [TerraformVariablesDir]}))
  {
    var actions := TerraformHead(t, dest)[2..];
    var config, variables := dest + [TerraformConfigurationDir], dest + [TerraformVariablesDir];
    var vars := ConfigurationPath(dest, VariablesTf);
    var srcVars := TerraformSource(t, VariablesTf);
    ParentSegmentsDiffer(t.loaderRoot + [t.templateName], dest, TerraformDir, TerraformConfigurationDir, VariablesTf, VariablesTf);
    assert Parent(vars) == config;
    RenderEffect(fs, srcVars, vars, render);
    var fs1 := fs.(files := fs.files[vars := render(fs.files[srcVars])]);
    RunFirst(fs, actions, render, fs1);
    assert vars !in Ancestry(dest) && vars != variables;
    MakeDirsInDirectory(fs1, dest, TerraformVariablesDir, render);
    var fs2 := fs1.(dirs := fs1.dirs + {variables});
    RunFirst(fs1, actions[1..], render, fs2);
    assert actions[1..][1..] == [];
  }

  /** `main.tf`, once `Terraform_Configuration` exists. */
  lemma TerraformHeadMain(fs: FileSystem, t: TerraformTemplate, dest: Path, render: string -> string)
    requires dest + [TerraformConfigurationDir] in fs.dirs
    requires !IsDir(fs, ConfigurationPath(dest, MainTf))
    requires TerraformSource(t, MainTf) in fs.files
    ensures Run(fs, TerraformHead(t, dest)[1..], render)
         == Run(fs.(files := fs.files[ConfigurationPath(dest, MainTf) := render(fs.files[TerraformSource(t, MainTf)])]),
                TerraformHead(t, dest)[2..], render)
  {
    var actions := TerraformHead(t, dest)[1..];
    var main := ConfigurationPath(dest, MainTf);
    ParentSegmentsDiffer(t.loaderRoot + [t.templateName], dest, TerraformDir, TerraformConfigurationDir, MainTf, MainTf);
    assert Parent(main) == dest + [TerraformConfigurationDir];
    RenderEffect(fs, TerraformSource(t, MainTf), main, render);
    RunFirst(fs, actions, render, fs.(files := fs.files[main := render(fs.files[TerraformSource(t, MainTf)])]));
    assert actions[1..] == TerraformHead(t, dest)[2..];
  }

  /** `Terraform_Configuration`, then `main.tf`. */
  lemma TerraformHeadFirst(fs: FileSystem, t: TerraformTemplate, dest: Path, render: string -> string)
    requires Ancestry(dest) <= fs.dirs && Ancestry(dest) !! fs.files.Keys
    requires !IsFile(fs, dest + [TerraformConfigurationDir])
    requires !IsDir(fs, ConfigurationPath(dest, MainTf))
    requires TerraformSource(t, MainTf) in fs.files
    ensures Run(fs, TerraformHead(t, dest), render)
         == Run(FileSystem(fs.files[ConfigurationPath(dest, MainTf) := render(fs.files[TerraformSource(t, MainTf)])],
                           fs.dirs + {dest + [TerraformConfigurationDir]}),
                TerraformHead(t, dest)[2..], render)
  {
    var head := TerraformHead(t, dest);
    var config := dest + [TerraformConfigurationDir];
    var main := ConfigurationPath(dest, MainTf);
    MakeDirsInDirectory(fs, dest, TerraformConfigurationDir, render);
    var fs1 := fs.(dirs := fs.dirs + {config});
    RunFirst(fs, head, render, fs1);
    assert head[1..] == TerraformHead(t, dest)[1..];
    assert !IsDir(fs1, main) by {
      assert |main| == |config| + 1;
    }
    TerraformHeadMain(fs1, t, dest, render);
  }

  /** `variables.tf` and `Terraform_Variables`, after `Terraform_Configuration` and `main.tf`. */
  lemma TerraformHeadRest(fs: FileSystem, t: TerraformTemplate, dest: Path, render: string -> string)
    requires Ancestry(dest) <= fs.dirs && Ancestry(dest) !! fs.files.Keys
    requires !IsFile(fs, dest + [TerraformVariablesDir])
    requires !IsDir(fs, ConfigurationPath(dest, VariablesTf))
    requires TerraformSource(t, MainTf) in fs.files && TerraformSource(t, VariablesTf) in fs.files
    ensures var main, vars := ConfigurationPath(dest, MainTf), ConfigurationPath(dest, VariablesTf);
            Run(FileSystem(fs.files[main := render(fs.files[TerraformSource(t, MainTf)])],
                           fs.dirs + {dest + [TerraformConfigurationDir]}),
                TerraformHead(t, dest)[2..], render)
            == Completed(FileSystem(
                 fs.files[main := render(fs.files[TerraformSource(t, MainTf)])]
                         [vars := render(fs.files[TerraformSource(t, VariablesTf)])],
                 fs.dirs + {dest + [TerraformConfigurationDir], dest + [TerraformVariablesDir]}))
  {
    var config, variables := dest + [TerraformConfigurationDir], dest + [TerraformVariablesDir];
    var main, vars := ConfigurationPath(dest, MainTf), ConfigurationPath(dest, VariablesTf);
    var srcVars := TerraformSource(t, VariablesTf);
    var fs2 := FileSystem(fs.files[main := render(fs.files[TerraformSource(t, MainTf)])], fs.dirs + {config});
    HeadPathsDiffer(t, dest);
    assert fs2.files[srcVars] == fs.files[srcVars];
    TerraformHeadLast(fs2, t, dest, render);
    assert fs2.dirs + {variables} == fs.dirs + {config, variables};
  }

  /**
   * The two folders and two configuration files: `makedirs`, `main.tf`,
   * `variables.tf`, `makedirs`, on a destination whose ancestors are all
   * directories.
   */
  lemma TerraformHeadEffect(fs: FileSystem, t: TerraformTemplate, dest: Path, render: string -> string)
    requires Ancestry(dest) <= fs.dirs && Ancestry(dest) !! fs.files.Keys
    requires !IsFile(fs, dest + [TerraformConfigurationDir]) && !IsFile(fs, dest + [TerraformVariablesDir])
    requires !IsDir(fs, ConfigurationPath(dest, MainTf)) && !IsDir(fs, ConfigurationPath(dest, VariablesTf))
    requires TerraformSource(t, MainTf) in fs.files && TerraformSource(t, VariablesTf) in fs.files
    ensures Run(fs, TerraformHead(t, dest), render)
            == Completed(FileSystem(
                 fs.files[ConfigurationPath(dest, MainTf) := render(fs.files[TerraformSource(t, MainTf)])]
                         [ConfigurationPath(dest, VariablesTf) := render(fs.files[TerraformSource(t, VariablesTf)])],
                 fs.dirs + {dest + [TerraformConfigurationDir], dest + [TerraformVariablesDir]}))
  {
    TerraformHeadFirst(fs, t, dest, render);
    TerraformHeadRest(fs, t, dest, render);
  }

  /** The paths of the Terraform head that must not coincide. */
  lemma HeadPathsDiffer(t: TerraformTemplate, dest: Path)
    ensures var main, vars := ConfigurationPath(dest, MainTf), ConfigurationPath(dest, VariablesTf);
            (&& TerraformSource(t, VariablesTf) != main
             && dest + [TerraformVariablesDir] != main
             && dest + [TerraformConfigurationDir] != vars
             && main !in Ancestry(dest))
  {
    var main, vars := ConfigurationPath(dest, MainTf), ConfigurationPath(dest, VariablesTf);
    var root := t.loaderRoot + [t.templateName];
    assert TerraformSource(t, VariablesTf) == root + [TerraformDir, VariablesTf];
    ParentSegmentsDiffer(root, dest, TerraformDir, TerraformConfigurationDir, VariablesTf, MainTf);
    assert |main| == |dest| + 2 && |vars| == |dest| + 2;
  }

  /** Once both folders exist every variables file can be opened. */
  lemma VariablesWritable(fs: FileSystem, dest: Path, environments: seq<string>)
    requires forall p :: p in VariablesPaths(dest, environments) ==> !IsDir(fs, p)
    ensures forall i :: 0 <= i < |environments| ==>
              Writable(FileSystem(fs.files, fs.dirs + {dest + [TerraformConfigurationDir], dest + [TerraformVariablesDir]}),
                       VariablesPaths(dest, environments)[i])
  {
    var config, variables := dest + [TerraformConfigurationDir], dest + [TerraformVariablesDir];
    forall i | 0 <= i < |environments|
      ensures var p := VariablesPaths(dest, environments)[i];
              && Parent(p) == variables && p != config && p != variables && !IsDir(fs, p)
    {
      var p := VariablesPaths(dest, environments)[i];
      assert p in VariablesPaths(dest, environments);
      assert |p| == |dest| + 2;
    }
  }

  /** Two single updates followed by a bulk update, as one bulk update. */
  lemma MergeUpdates<K, V>(m: map<K, V>, k1: K, v1: V, k2: K, v2: V, rest: map<K, V>)
    ensures m[k1 := v1][k2 := v2] + rest == m + (map[k1 := v1, k2 := v2] + rest)
  {
  }

  /**
   * On a ready filesystem the Terraform step completes; afterwards every
   * output file holds the render of its template (last write wins, and all
   * writes of one variables file agree), both output folders exist, and
   * nothing else changed.
   */
  lemma TerraformConfigurationEffect(
    fs: FileSystem, t: TerraformTemplate, dest: Path, environments: seq<string>, render: string -> string)
    requires TerraformReady(fs, t, dest, environments)
    ensures GenerateTerraformConfiguration(fs, t, dest, environments, render)
         == Completed(FileSystem(
              fs.files + TerraformOutputs(fs, t, dest, environments, render),
              fs.dirs + {dest + [TerraformConfigurationDir], dest + [TerraformVariablesDir]}))
  {
    var main, vars := ConfigurationPath(dest, MainTf), ConfigurationPath(dest, VariablesTf);
    var srcEnv := TerraformSource(t, EnvironmentTfvars);
    var targets := VariablesPaths(dest, environments);
    var files4 := fs.files[main := render(fs.files[TerraformSource(t, MainTf)])]
                          [vars := render(fs.files[TerraformSource(t, VariablesTf)])];
    var fs4 := FileSystem(files4, fs.dirs + {dest + [TerraformConfigurationDir], dest + [TerraformVariablesDir]});
    TerraformReadyFacts(fs, t, dest, environments);
    RunAppend(fs, TerraformHead(t, dest), RendersFrom(srcEnv, targets), render);
    TerraformHeadEffect(fs, t, dest, render);
    VariablesWritable(FileSystem(files4, fs.dirs), dest, environments);
    SourceIsNotOutput(t, EnvironmentTfvars, dest, environments);
    assert srcEnv in files4 && files4[srcEnv] == fs.files[srcEnv];
    RunRendersFrom(fs4, srcEnv, targets, render);
    MergeUpdates(fs.files, main, render(fs.files[TerraformSource(t, MainTf)]),
                 vars, render(fs.files[TerraformSource(t, VariablesTf)]),
                 map p | p in targets :: render(fs.files[srcEnv]));
  }

  /**
   * No environment data reaches the render: every variables file holds the
   * render of `environment.tfvars`, so all of them are identical.
   */
  lemma TerraformVariablesIdentical(
    fs: FileSystem, t: TerraformTemplate, dest: Path, environments: seq<string>, render: string -> string)
    requires TerraformReady(fs, t, dest, environments)
    ensures var after := GenerateTerraformConfiguration(fs, t, dest, environments, render).fs;
            forall e :: e in environments ==>
              && VariablesPath(dest, e) in after.files
              && after.files[VariablesPath(dest, e)] == render(fs.files[TerraformSource(t, EnvironmentTfvars)])
  {
    TerraformConfigurationEffect(fs, t, dest, environments, render);
    var outputs := TerraformOutputs(fs, t, dest, environments, render);
    forall e | e in environments
      ensures VariablesPath(dest, e) in outputs
      ensures outputs[VariablesPath(dest, e)] == render(fs.files[TerraformSource(t, EnvironmentTfvars)])
    {
      VariablesOutput(fs, t, dest, environments, render, e);
    }
  }

  /** The output map holds each environment's variables file with the render of `environment.tfvars`. */
  lemma VariablesOutput(
    fs: FileSystem, t: TerraformTemplate, dest: Path, environments: seq<string>, render: string -> string, e: string)
    requires TerraformSources(t) <= fs.files.Keys
    requires e in environments
    ensures VariablesPath(dest, e) in TerraformOutputs(fs, t, dest, environments, render)
    ensures TerraformOutputs(fs, t, dest, environments, render)[VariablesPath(dest, e)]
         == render(fs.files[TerraformSource(t, EnvironmentTfvars)])
  {
    VariablesPathIn(dest, environments, e);
  }

  // ---------------------------------------------------------------------
  // What the Jenkins step leaves on disk

  /**
   * The copy either completes, writing the Jenkinsfile byte for byte to the
   * place `shutil.copy` resolves and changing nothing else, or fails and
   * leaves the disk as it was. It completes exactly when the source is a
   * regular file, the resolved target is a different path, and the target
   * can be opened.
   */
  lemma JenkinsCopyOutcome(fs: FileSystem, t: JenkinsTemplate, dest: Path, render: string -> string)
    ensures var o := GenerateJenkinsConfiguration(fs, t, dest, render);
            var dst := CopyTarget(fs, JenkinsSource(t), dest + [Jenkinsfile]);
            && (o.Completed? <==> IsFile(fs, JenkinsSource(t)) && dst != JenkinsSource(t) && Writable(fs, dst))
            && (o.Completed? ==> o.fs == fs.(files := fs.files[dst := fs.files[JenkinsSource(t)]]))
            && (o.Aborted? ==> o.fs == fs)
  {
    var plan := JenkinsPlan(t, dest);
    assert plan[1..] == [];
    match Step(fs, plan[0], render)
    case Aborted(_, _) =>
    case Completed(next) =>
      assert Run(fs, plan, render) == Run(next, [], render);
  }

  /**
   * A valid Jenkins facet copied into a directory that has no folder named
   * `Jenkinsfile` yields `<dest>/Jenkinsfile` with the template's contents.
   */
  lemma JenkinsConfigurationEffect(fs: FileSystem, t: JenkinsTemplate, dest: Path, render: string -> string)
    requires ValidateJenkinsStructure(fs, t.templatePath)
    requires IsDir(fs, dest) && !IsDir(fs, dest + [Jenkinsfile])
    requires dest + [Jenkinsfile] != JenkinsSource(t)
    ensures GenerateJenkinsConfiguration(fs, t, dest, render)
         == Completed(fs.(files := fs.files[dest + [Jenkinsfile] := fs.files[JenkinsSource(t)]]))
  {
    JenkinsCopyOutcome(fs, t, dest, render);
    assert Parent(dest + [Jenkinsfile]) == dest;
  }

  /** Without the Jenkinsfile the copy would raise and change nothing: the check guards the call. */
  lemma JenkinsCopyNeedsValidTemplate(fs: FileSystem, t: JenkinsTemplate, dest: Path, render: string -> string)
    requires !ValidateJenkinsStructure(fs, t.templatePath)
    ensures GenerateJenkinsConfiguration(fs, t, dest, render).Aborted?
    ensures GenerateJenkinsConfiguration(fs, t, dest, render).fs == fs
  {
    JenkinsCopyOutcome(fs, t, dest, render);
  }
}
