/**
 * `RepositoryTemplate.generate_repository`: the repository folder
 * `<target>/<id>_<name>_<component>` is created, then the Terraform facet is
 * generated into it if that facet is valid, then the Jenkins facet if that
 * one is valid. The README and git placeholders do nothing and make no call.
 */
module Repository {
  import opened Os
  import opened Templates
  import opened Generator
  import Naming

  /** Every facet whose flag is set still finds its template files on disk. */
  predicate SourcesPresent(fs: FileSystem, rt: RepositoryTemplate) {
    && (rt.terraform.valid ==> TerraformSources(rt.terraform) <= fs.files.Keys)
    && (rt.jenkins.valid ==> JenkinsSource(rt.jenkins) in fs.files)
  }

  /**
   * A destination the generation runs through: no prefix of the repository
   * folder is a regular file, the Terraform folders are not regular files and
   * its output files are not folders, and `Jenkinsfile` is not a folder.
   * Only the facets that will be generated are constrained.
   */
  ghost predicate DestinationReady(fs: FileSystem, rt: RepositoryTemplate, dest: Path, environments: seq<string>) {
    && WellFormed(fs)
    && (forall i :: 0 < i <= |dest| ==> !IsFile(fs, dest[..i]))
    && (rt.terraform.valid ==>
          && !IsFile(fs, dest + [TerraformConfigurationDir])
          && !IsFile(fs, dest + [TerraformVariablesDir])
          && forall p :: p in TerraformOutputPaths(dest, environments) ==> !IsDir(fs, p))
    && (rt.jenkins.valid ==> !IsDir(fs, dest + [Jenkinsfile]))
  }

  /** The files a generation leaves in the repository folder, with their contents. */
  function RepositoryOutputs(
    fs: FileSystem, rt: RepositoryTemplate, dest: Path, environments: seq<string>, render: string -> string): map<Path, string>
    requires SourcesPresent(fs, rt)
  {
    (if rt.terraform.valid then TerraformOutputs(fs, rt.terraform, dest, environments, render) else map[])
    + (if rt.jenkins.valid then map[dest + [Jenkinsfile] := fs.files[JenkinsSource(rt.jenkins)]] else map[])
  }

  /** The folders a generation leaves: the repository folder with its ancestors, and the Terraform folders. */
  function RepositoryFolders(rt: RepositoryTemplate, dest: Path): set<Path> {
    Ancestry(dest)
    + (if rt.terraform.valid then {dest + [TerraformConfigurationDir], dest + [TerraformVariablesDir]} else {})
  }

  // ---------------------------------------------------------------------
  // Where the template lives relative to the repository folder

  /** The constructor's handle finds every file it validated. */
  lemma NewTemplateSourcesPresent(fs: FileSystem, templatesPath: Path, templateName: string)
    ensures SourcesPresent(fs, NewRepositoryTemplate(fs, templatesPath, templateName))
  {
    var rt := NewRepositoryTemplate(fs, templatesPath, templateName);
    assert JenkinsSource(rt.jenkins) == templatesPath + [templateName, JenkinsDir, Jenkinsfile];
    assert TerraformSource(rt.terraform, MainTf) == templatesPath + [templateName, TerraformDir, MainTf];
    assert TerraformSource(rt.terraform, VariablesTf) == templatesPath + [templateName, TerraformDir, VariablesTf];
    assert TerraformSource(rt.terraform, EnvironmentTfvars) == templatesPath + [templateName, TerraformDir, EnvironmentTfvars];
  }

  /** Paths whose last segments differ are different. */
  lemma LastSegmentsDiffer(p: Path, q: Path, x: string, y: string)
    requires x != y
    ensures p + [x] != q + [y]
  {
    if |p| == |q| {
      assert (p + [x])[|p|] == x;
    }
  }

  /** A repository name always holds an underscore, so it is never the `jenkins` folder. */
  lemma RepositoryNameIsNotJenkinsDir(applicationId: string, applicationName: string, componentName: string)
    ensures Naming.RepositoryName(applicationId, applicationName, componentName) != JenkinsDir
  {
    Naming.RepositoryNameParts(applicationId, applicationName, componentName);
    Naming.RepositoryNameShape(applicationId, applicationName, componentName);
    var name := Naming.RepositoryName(applicationId, applicationName, componentName);
    assert name[|applicationId|] == '_';
    assert '_' !in JenkinsDir;
  }

  /** The Jenkinsfile of the template is neither the copy nor any Terraform output. */
  lemma JenkinsSourceIsNotOutput(
    rt: RepositoryTemplate, target: Path,
    applicationId: string, applicationName: string, componentName: string, environments: seq<string>)
    requires LaidOut(rt)
    ensures var dest := RepositoryPath(target, applicationId, applicationName, componentName);
            (&& JenkinsSource(rt.jenkins) != dest + [Jenkinsfile]
             && JenkinsSource(rt.jenkins) !in TerraformOutputPaths(dest, environments))
  {
    var dest := RepositoryPath(target, applicationId, applicationName, componentName);
    var name := Naming.RepositoryName(applicationId, applicationName, componentName);
    var root := rt.templatesPath + [rt.templateName];
    assert JenkinsSource(rt.jenkins) == root + [JenkinsDir, Jenkinsfile];
    RepositoryNameIsNotJenkinsDir(applicationId, applicationName, componentName);
    ParentSegmentsDiffer(root, target, JenkinsDir, name, Jenkinsfile, Jenkinsfile);
    assert dest + [Jenkinsfile] == target + [name, Jenkinsfile];
    ParentSegmentsDiffer(root, dest, JenkinsDir, TerraformConfigurationDir, Jenkinsfile, MainTf);
    ParentSegmentsDiffer(root, dest, JenkinsDir, TerraformConfigurationDir, Jenkinsfile, VariablesTf);
    forall k | 0 <= k < |environments|
      ensures VariablesPaths(dest, environments)[k] != JenkinsSource(rt.jenkins)
    {
      ParentSegmentsDiffer(root, dest, JenkinsDir, TerraformVariablesDir, Jenkinsfile, TfvarsFile(environments[k]));
    }
  }

  /** The copied Jenkinsfile is not one of the Terraform outputs: it sits one level higher. */
  lemma JenkinsTargetIsNotTerraformOutput(dest: Path, environments: seq<string>)
    ensures dest + [Jenkinsfile] !in TerraformOutputPaths(dest, environments)
  {
    forall p | p in TerraformOutputPaths(dest, environments)
      ensures |p| == |dest| + 2
    {
      if p !in {ConfigurationPath(dest, MainTf), ConfigurationPath(dest, VariablesTf)} {
        var k :| 0 <= k < |environments| && p == VariablesPaths(dest, environments)[k];
      }
    }
  }

  /** The Terraform outputs are keyed by exactly the output paths. */
  lemma TerraformOutputsKeys(fs: FileSystem, t: TerraformTemplate, dest: Path, environments: seq<string>, render: string -> string)
    requires TerraformSources(t) <= fs.files.Keys
    ensures TerraformOutputs(fs, t, dest, environments, render).Keys == TerraformOutputPaths(dest, environments)
  {
  }

  // ---------------------------------------------------------------------
  // The three stages of a generation

  /** The guarded `os.makedirs` of the repository folder. */
  lemma FolderStage(fs: FileSystem, rt: RepositoryTemplate, dest: Path, environments: seq<string>, render: string -> string)
    requires WellFormed(fs)
    requires forall i :: 0 < i <= |dest| ==> !IsFile(fs, dest[..i])
    ensures Run(fs, RepositoryPlan(rt, dest, environments), render)
         == Run(fs.(dirs := fs.dirs + Ancestry(dest)),
                TerraformFacetPlan(rt, dest, environments) + JenkinsFacetPlan(rt, dest), render)
    ensures WellFormed(fs.(dirs := fs.dirs + Ancestry(dest)))
  {
    var plan := RepositoryPlan(rt, dest, environments);
    MakeDirsEffect(fs, dest, render);
    StepPreservesWellFormed(fs, MakeDirs(dest), render);
    assert plan[0] == MakeDirs(dest);
    assert plan[1..] == TerraformFacetPlan(rt, dest, environments) + JenkinsFacetPlan(rt, dest);
    RunFirst(fs, plan, render, fs.(dirs := fs.dirs + Ancestry(dest)));
  }

  /** The disk after the repository folder and the Terraform facet. */
  function AfterTerraform(
    fs: FileSystem, rt: RepositoryTemplate, dest: Path, environments: seq<string>, render: string -> string): FileSystem
    requires SourcesPresent(fs, rt)
  {
    FileSystem(
      fs.files + (if rt.terraform.valid then TerraformOutputs(fs, rt.terraform, dest, environments, render) else map[]),
      fs.dirs + RepositoryFolders(rt, dest))
  }

  /** Once the repository folder exists the Terraform step finds its destination ready. */
  lemma TerraformReadyInFolder(fs: FileSystem, rt: RepositoryTemplate, dest: Path, environments: seq<string>)
    requires SourcesPresent(fs, rt) && DestinationReady(fs, rt, dest, environments) && dest != []
    requires WellFormed(fs.(dirs := fs.dirs + Ancestry(dest)))
    requires rt.terraform.valid
    ensures TerraformReady(fs.(dirs := fs.dirs + Ancestry(dest)), rt.terraform, dest, environments)
  {
    var fs1 := fs.(dirs := fs.dirs + Ancestry(dest));
    forall p | p in TerraformOutputPaths(dest, environments)
      ensures !IsDir(fs1, p)
    {
      if p !in {ConfigurationPath(dest, MainTf), ConfigurationPath(dest, VariablesTf)} {
        var k :| 0 <= k < |environments| && p == VariablesPaths(dest, environments)[k];
      }
      assert |p| == |dest| + 2;
    }
    assert dest in Ancestry(dest);
  }

  /** The Terraform facet, once the repository folder exists. */
  lemma TerraformStage(fs: FileSystem, rt: RepositoryTemplate, dest: Path, environments: seq<string>, render: string -> string)
    requires SourcesPresent(fs, rt) && DestinationReady(fs, rt, dest, environments) && dest != []
    requires WellFormed(fs.(dirs := fs.dirs + Ancestry(dest)))
    ensures Run(fs.(dirs := fs.dirs + Ancestry(dest)), TerraformFacetPlan(rt, dest, environments), render)
         == Completed(AfterTerraform(fs, rt, dest, environments, render))
  {
    if rt.terraform.valid {
      var fs1 := fs.(dirs := fs.dirs + Ancestry(dest));
      var folders := {dest + [TerraformConfigurationDir], dest + [TerraformVariablesDir]};
      TerraformReadyInFolder(fs, rt, dest, environments);
      TerraformConfigurationEffect(fs1, rt.terraform, dest, environments, render);
      assert TerraformOutputs(fs1, rt.terraform, dest, environments, render)
          == TerraformOutputs(fs, rt.terraform, dest, environments, render);
      assert RepositoryFolders(rt, dest) == Ancestry(dest) + folders;
      assert fs1.dirs + folders == fs.dirs + RepositoryFolders(rt, dest);
    } else {
      assert fs.files + map[] == fs.files;
    }
  }

  /** The Jenkins facet, last. */
  lemma JenkinsStage(fs: FileSystem, rt: RepositoryTemplate, dest: Path, render: string -> string)
    requires rt.jenkins.valid ==>
               && JenkinsSource(rt.jenkins) in fs.files
               && IsDir(fs, dest) && !IsDir(fs, dest + [Jenkinsfile])
               && dest + [Jenkinsfile] != JenkinsSource(rt.jenkins)
    ensures Run(fs, JenkinsFacetPlan(rt, dest), render)
         == Completed(
              if rt.jenkins.valid then fs.(files := fs.files[dest + [Jenkinsfile] := fs.files[JenkinsSource(rt.jenkins)]])
              else fs)
  {
    if rt.jenkins.valid {
      JenkinsConfigurationEffect(fs, rt.jenkins, dest, render);
    }
  }

  // ---------------------------------------------------------------------
  // What a generation leaves on disk

  /** After the Terraform facet the Jenkinsfile can still be copied, from unchanged contents. */
  lemma JenkinsStageReady(
    fs: FileSystem, rt: RepositoryTemplate, target: Path,
    applicationId: string, applicationName: string, componentName: string,
    environments: seq<string>, render: string -> string)
    requires LaidOut(rt) && SourcesPresent(fs, rt) && rt.jenkins.valid
    requires DestinationReady(fs, rt, RepositoryPath(target, applicationId, applicationName, componentName), environments)
    ensures var dest := RepositoryPath(target, applicationId, applicationName, componentName);
            var fs2 := AfterTerraform(fs, rt, dest, environments, render);
            (&& JenkinsSource(rt.jenkins) in fs2.files
             && fs2.files[JenkinsSource(rt.jenkins)] == fs.files[JenkinsSource(rt.jenkins)]
             && IsDir(fs2, dest) && !IsDir(fs2, dest + [Jenkinsfile])
             && dest + [Jenkinsfile] != JenkinsSource(rt.jenkins))
  {
    var dest := RepositoryPath(target, applicationId, applicationName, componentName);
    JenkinsSourceIsNotOutput(rt, target, applicationId, applicationName, componentName, environments);
    if rt.terraform.valid {
      TerraformOutputsKeys(fs, rt.terraform, dest, environments, render);
    }
    assert dest in Ancestry(dest);
    assert dest + [Jenkinsfile] !in Ancestry(dest);
    LastSegmentsDiffer(dest, dest, Jenkinsfile, TerraformConfigurationDir);
    LastSegmentsDiffer(dest, dest, Jenkinsfile, TerraformVariablesDir);
  }

  /** One more entry on top of a bulk update. */
  lemma MergeLast<K, V>(m: map<K, V>, a: map<K, V>, k: K, v: V)
    ensures (m + a)[k := v] == m + (a + map[k := v])
  {
  }

  /** With the Jenkins facet valid, its copy completes the outputs of the generation. */
  lemma JenkinsStageCopies(
    fs: FileSystem, rt: RepositoryTemplate, target: Path,
    applicationId: string, applicationName: string, componentName: string,
    environments: seq<string>, render: string -> string)
    requires LaidOut(rt) && SourcesPresent(fs, rt) && rt.jenkins.valid
    requires DestinationReady(fs, rt, RepositoryPath(target, applicationId, applicationName, componentName), environments)
    ensures var dest := RepositoryPath(target, applicationId, applicationName, componentName);
            Run(AfterTerraform(fs, rt, dest, environments, render), JenkinsFacetPlan(rt, dest), render)
            == Completed(FileSystem(
                 fs.files + RepositoryOutputs(fs, rt, dest, environments, render),
                 fs.dirs + RepositoryFolders(rt, dest)))
  {
    var dest := RepositoryPath(target, applicationId, applicationName, componentName);
    var fs2 := AfterTerraform(fs, rt, dest, environments, render);
    var tfFiles := if rt.terraform.valid then TerraformOutputs(fs, rt.terraform, dest, environments, render) else map[];
    JenkinsStageReady(fs, rt, target, applicationId, applicationName, componentName, environments, render);
    JenkinsStage(fs2, rt, dest, render);
    MergeLast(fs.files, tfFiles, dest + [Jenkinsfile], fs.files[JenkinsSource(rt.jenkins)]);
  }

  /** The Jenkins facet completes the outputs of the generation. */
  lemma JenkinsStageEffect(
    fs: FileSystem, rt: RepositoryTemplate, target: Path,
    applicationId: string, applicationName: string, componentName: string,
    environments: seq<string>, render: string -> string)
    requires LaidOut(rt) && SourcesPresent(fs, rt)
    requires DestinationReady(fs, rt, RepositoryPath(target, applicationId, applicationName, componentName), environments)
    ensures var dest := RepositoryPath(target, applicationId, applicationName, componentName);
            Run(AfterTerraform(fs, rt, dest, environments, render), JenkinsFacetPlan(rt, dest), render)
            == Completed(FileSystem(
                 fs.files + RepositoryOutputs(fs, rt, dest, environments, render),
                 fs.dirs + RepositoryFolders(rt, dest)))
  {
    if rt.jenkins.valid {
      JenkinsStageCopies(fs, rt, target, applicationId, applicationName, componentName, environments, render);
    } else {
      var dest := RepositoryPath(target, applicationId, applicationName, componentName);
      var tfFiles := if rt.terraform.valid then TerraformOutputs(fs, rt.terraform, dest, environments, render) else map[];
      assert RepositoryOutputs(fs, rt, dest, environments, render) == tfFiles + map[];
      assert tfFiles + map[] == tfFiles;
      assert JenkinsFacetPlan(rt, dest) == [];
    }
  }

  /**
   * On a ready destination the generation completes: the repository folder
   * and its ancestors exist, each valid facet's files hold what that facet
   * writes, the Terraform folders exist if that facet was generated, and
   * nothing else changed. The template's own `valid` flag plays no part.
   */
  lemma GenerateRepositoryEffect(
    fs: FileSystem, rt: RepositoryTemplate, target: Path,
    applicationId: string, applicationName: string, componentName: string,
    environments: seq<string>, render: string -> string)
    requires LaidOut(rt) && SourcesPresent(fs, rt)
    requires DestinationReady(fs, rt, RepositoryPath(target, applicationId, applicationName, componentName), environments)
    ensures var dest := RepositoryPath(target, applicationId, applicationName, componentName);
            GenerateRepository(fs, rt, target, applicationId, applicationName, componentName, environments, render)
            == Completed(FileSystem(
                 fs.files + RepositoryOutputs(fs, rt, dest, environments, render),
                 fs.dirs + RepositoryFolders(rt, dest)))
  {
    var dest := RepositoryPath(target, applicationId, applicationName, componentName);
    var fs1 := fs.(dirs := fs.dirs + Ancestry(dest));
    FolderStage(fs, rt, dest, environments, render);
    RunAppend(fs1, TerraformFacetPlan(rt, dest, environments), JenkinsFacetPlan(rt, dest), render);
    TerraformStage(fs, rt, dest, environments, render);
    JenkinsStageEffect(fs, rt, target, applicationId, applicationName, componentName, environments, render);
  }

  /** For the constructor's handle the template side is always satisfied. */
  lemma GenerateFromTemplatesEffect(
    fs: FileSystem, templatesPath: Path, templateName: string, target: Path,
    applicationId: string, applicationName: string, componentName: string,
    environments: seq<string>, render: string -> string)
    requires var rt := NewRepositoryTemplate(fs, templatesPath, templateName);
             DestinationReady(fs, rt, RepositoryPath(target, applicationId, applicationName, componentName), environments)
    ensures var rt := NewRepositoryTemplate(fs, templatesPath, templateName);
            var dest := RepositoryPath(target, applicationId, applicationName, componentName);
            (&& SourcesPresent(fs, rt)
             && GenerateRepository(fs, rt, target, applicationId, applicationName, componentName, environments, render)
                == Completed(FileSystem(
                     fs.files + RepositoryOutputs(fs, rt, dest, environments, render),
                     fs.dirs + RepositoryFolders(rt, dest))))
  {
    NewTemplateSourcesPresent(fs, templatesPath, templateName);
    GenerateRepositoryEffect(fs, NewRepositoryTemplate(fs, templatesPath, templateName), target,
                             applicationId, applicationName, componentName, environments, render);
  }

  /**
   * A template whose Terraform facet is incomplete but whose Jenkins facet is
   * valid yields the repository folder holding only the Jenkinsfile, and no
   * Terraform folder.
   */
  lemma OnlyJenkinsFacet(
    fs: FileSystem, rt: RepositoryTemplate, target: Path,
    applicationId: string, applicationName: string, componentName: string,
    environments: seq<string>, render: string -> string)
    requires LaidOut(rt) && SourcesPresent(fs, rt)
    requires !rt.terraform.valid && rt.jenkins.valid
    requires DestinationReady(fs, rt, RepositoryPath(target, applicationId, applicationName, componentName), environments)
    ensures var dest := RepositoryPath(target, applicationId, applicationName, componentName);
            GenerateRepository(fs, rt, target, applicationId, applicationName, componentName, environments, render)
            == Completed(FileSystem(
                 fs.files[dest + [Jenkinsfile] := fs.files[JenkinsSource(rt.jenkins)]],
                 fs.dirs + Ancestry(dest)))
  {
    GenerateRepositoryEffect(fs, rt, target, applicationId, applicationName, componentName, environments, render);
    JenkinsOnlyOutputs(fs, rt, RepositoryPath(target, applicationId, applicationName, componentName), environments, render);
  }

  /** Without the Terraform facet the outputs are the copied Jenkinsfile and the folders the repository chain. */
  lemma JenkinsOnlyOutputs(fs: FileSystem, rt: RepositoryTemplate, dest: Path, environments: seq<string>, render: string -> string)
    requires SourcesPresent(fs, rt) && !rt.terraform.valid && rt.jenkins.valid
    ensures fs.files + RepositoryOutputs(fs, rt, dest, environments, render)
         == fs.files[dest + [Jenkinsfile] := fs.files[JenkinsSource(rt.jenkins)]]
    ensures fs.dirs + RepositoryFolders(rt, dest) == fs.dirs + Ancestry(dest)
  {
    var copy := map[dest + [Jenkinsfile] := fs.files[JenkinsSource(rt.jenkins)]];
    assert RepositoryOutputs(fs, rt, dest, environments, render) == map[] + copy;
    assert map[] + copy == copy;
    assert RepositoryFolders(rt, dest) == Ancestry(dest) + {};
  }

  // ---------------------------------------------------------------------
  // What a generation may touch

  /**
   * The files a generation may write are exactly the outputs of its valid
   * facets (the copy may land in `Jenkinsfile/Jenkinsfile` when
   * `Jenkinsfile` is a folder), and the folders it may create are the
   * repository folder with its ancestors and, for a valid Terraform facet,
   * the two Terraform folders. An invalid facet contributes nothing.
   */
  lemma RepositoryTouches(rt: RepositoryTemplate, dest: Path, environments: seq<string>)
    ensures Touched(RepositoryPlan(rt, dest, environments))
         == (if rt.terraform.valid then TerraformOutputPaths(dest, environments) else {})
            + (if rt.jenkins.valid then {dest + [Jenkinsfile], dest + [Jenkinsfile, Jenkinsfile]} else {})
    ensures Created(RepositoryPlan(rt, dest, environments)) == RepositoryFolders(rt, dest)
  {
    var folder := [MakeDirs(dest)];
    var tfPlan, jkPlan := TerraformFacetPlan(rt, dest, environments), JenkinsFacetPlan(rt, dest);
    TouchedAppend(folder + tfPlan, jkPlan);
    TouchedAppend(folder, tfPlan);
    assert folder[1..] == [];
    if rt.terraform.valid {
      TerraformTouches(rt.terraform, dest, environments);
      AncestryChild(dest, TerraformConfigurationDir);
      AncestryChild(dest, TerraformVariablesDir);
    }
    assert Touched(folder) == {} && Created(folder) == Ancestry(dest);
    if rt.jenkins.valid {
      assert jkPlan[1..] == [];
      assert BaseName(JenkinsSource(rt.jenkins)) == [Jenkinsfile];
      assert dest + [Jenkinsfile] + [Jenkinsfile] == dest + [Jenkinsfile, Jenkinsfile];
      assert Touched(jkPlan) == {dest + [Jenkinsfile], dest + [Jenkinsfile, Jenkinsfile]};
    }
  }

  /**
   * Whether it completes or not, a generation changes no file outside the
   * repository folder, and the only folders it adds are that folder, its
   * ancestors and the Terraform folders.
   */
  lemma GenerateRepositoryFrame(
    fs: FileSystem, rt: RepositoryTemplate, target: Path,
    applicationId: string, applicationName: string, componentName: string,
    environments: seq<string>, render: string -> string)
    ensures var dest := RepositoryPath(target, applicationId, applicationName, componentName);
            var after := GenerateRepository(fs, rt, target, applicationId, applicationName, componentName, environments, render).fs;
            (&& (forall p :: !(dest < p) ==> SameEntry(fs, after, p))
             && fs.dirs <= after.dirs <= fs.dirs + RepositoryFolders(rt, dest))
  {
    var dest := RepositoryPath(target, applicationId, applicationName, componentName);
    RepositoryTouches(rt, dest, environments);
    forall p | p in Touched(RepositoryPlan(rt, dest, environments))
      ensures dest < p
    {
      if p in TerraformOutputPaths(dest, environments) && p !in {ConfigurationPath(dest, MainTf), ConfigurationPath(dest, VariablesTf)} {
        var k :| 0 <= k < |environments| && p == VariablesPaths(dest, environments)[k];
      }
    }
  }

  /**
   * The Terraform facet runs before the Jenkins facet: when creating the
   * folder or generating the Terraform facet raises, the generation ends
   * there and `<dest>/Jenkinsfile` is left as it was.
   */
  lemma TerraformAbortSkipsJenkins(
    fs: FileSystem, rt: RepositoryTemplate, dest: Path, environments: seq<string>, render: string -> string)
    requires Run(fs, [MakeDirs(dest)] + TerraformFacetPlan(rt, dest, environments), render).Aborted?
    ensures Run(fs, RepositoryPlan(rt, dest, environments), render)
         == Run(fs, [MakeDirs(dest)] + TerraformFacetPlan(rt, dest, environments), render)
    ensures SameEntry(fs, Run(fs, RepositoryPlan(rt, dest, environments), render).fs, dest + [Jenkinsfile])
  {
    var folder := [MakeDirs(dest)];
    var tfPlan := TerraformFacetPlan(rt, dest, environments);
    RunAppend(fs, folder + tfPlan, JenkinsFacetPlan(rt, dest), render);
    TouchedAppend(folder, tfPlan);
    assert Touched(folder) == {} by {
      assert folder[1..] == [];
    }
    if rt.terraform.valid {
      TerraformTouches(rt.terraform, dest, environments);
      JenkinsTargetIsNotTerraformOutput(dest, environments);
    }
    assert dest + [Jenkinsfile] !in Touched(folder + tfPlan);
  }

  /** `generate_repository` never reads the template's own `valid` flag. */
  lemma IgnoresTopLevelValid(
    fs: FileSystem, rt: RepositoryTemplate, valid: bool, target: Path,
    applicationId: string, applicationName: string, componentName: string,
    environments: seq<string>, render: string -> string)
    ensures GenerateRepository(fs, rt.(valid := valid), target, applicationId, applicationName, componentName, environments, render)
         == GenerateRepository(fs, rt, target, applicationId, applicationName, componentName, environments, render)
  {
  }

  // ---------------------------------------------------------------------
  // How many files a generation leaves

  /**
   * A generation leaves `2 + |distinct environments|` files for a valid
   * Terraform facet and one more for a valid Jenkins facet.
   */
  lemma RepositoryFileCount(
    fs: FileSystem, rt: RepositoryTemplate, dest: Path, environments: seq<string>, render: string -> string)
    requires SourcesPresent(fs, rt)
    ensures |RepositoryOutputs(fs, rt, dest, environments, render).Keys|
         == (if rt.terraform.valid then 2 + |set e | e in environments| else 0) + (if rt.jenkins.valid then 1 else 0)
  {
    var tfKeys := if rt.terraform.valid then TerraformOutputPaths(dest, environments) else {};
    var jkKeys := if rt.jenkins.valid then {dest + [Jenkinsfile]} else {};
    if rt.terraform.valid {
      TerraformOutputsKeys(fs, rt.terraform, dest, environments, render);
      TerraformDistinctFiles(dest, environments);
    }
    JenkinsTargetIsNotTerraformOutput(dest, environments);
    assert RepositoryOutputs(fs, rt, dest, environments, render).Keys == tfKeys + jkKeys;
    assert tfKeys !! jkKeys;
  }

  /**
   * The repository's own example request: with both facets valid and the
   * environments `dev` and `test`, the repository folder receives five files.
   */
  lemma ExampleGenerationFileCount(fs: FileSystem, rt: RepositoryTemplate, dest: Path, render: string -> string)
    requires SourcesPresent(fs, rt) && rt.terraform.valid && rt.jenkins.valid
    ensures |RepositoryOutputs(fs, rt, dest, ["dev", "test"], render).Keys| == 5
  {
    TwoEnvironments(fs, rt, dest, "dev", "test", render);
  }

  /** Two different environments give five files. */
  lemma TwoEnvironments(fs: FileSystem, rt: RepositoryTemplate, dest: Path, first: string, second: string, render: string -> string)
    requires SourcesPresent(fs, rt) && rt.terraform.valid && rt.jenkins.valid
    requires first != second
    ensures |RepositoryOutputs(fs, rt, dest, [first, second], render).Keys| == 5
  {
    RepositoryFileCount(fs, rt, dest, [first, second], render);
    TwoNames(first, second);
  }

  lemma TwoNames(first: string, second: string)
    requires first != second
    ensures |set e | e in [first, second]| == 2
  {
    assert (set e | e in [first, second]) == {first, second};
  }

  // ---------------------------------------------------------------------
  // Generating twice

  /** No template file is among the files a generation writes. */
  lemma SourcesAreNotRepositoryOutputs(
    fs: FileSystem, rt: RepositoryTemplate, target: Path,
    applicationId: string, applicationName: string, componentName: string,
    environments: seq<string>, render: string -> string)
    requires LaidOut(rt) && SourcesPresent(fs, rt)
    ensures var dest := RepositoryPath(target, applicationId, applicationName, componentName);
            var outputs := RepositoryOutputs(fs, rt, dest, environments, render);
            (&& (rt.terraform.valid ==> TerraformSources(rt.terraform) !! outputs.Keys)
             && (rt.jenkins.valid ==> JenkinsSource(rt.jenkins) !in outputs))
  {
    var dest := RepositoryPath(target, applicationId, applicationName, componentName);
    var t := rt.terraform;
    if rt.terraform.valid {
      TerraformOutputsKeys(fs, t, dest, environments, render);
      SourcesAreNotOutputs(t, dest, environments);
    }
    var folder := t.loaderRoot + [t.templateName, TerraformDir];
    assert TerraformSource(t, MainTf) == folder + [MainTf];
    assert TerraformSource(t, VariablesTf) == folder + [VariablesTf];
    assert TerraformSource(t, EnvironmentTfvars) == folder + [EnvironmentTfvars];
    LastSegmentsDiffer(folder, dest, MainTf, Jenkinsfile);
    LastSegmentsDiffer(folder, dest, VariablesTf, Jenkinsfile);
    LastSegmentsDiffer(folder, dest, EnvironmentTfvars, Jenkinsfile);
    JenkinsSourceIsNotOutput(rt, target, applicationId, applicationName, componentName, environments);
  }

  /** What a generation writes depends on the disk only through the template files. */
  lemma OutputsFollowSources(
    fs: FileSystem, fs': FileSystem, rt: RepositoryTemplate, dest: Path, environments: seq<string>, render: string -> string)
    requires SourcesPresent(fs, rt) && SourcesPresent(fs', rt)
    requires rt.terraform.valid ==> forall p :: p in TerraformSources(rt.terraform) ==> fs'.files[p] == fs.files[p]
    requires rt.jenkins.valid ==> fs'.files[JenkinsSource(rt.jenkins)] == fs.files[JenkinsSource(rt.jenkins)]
    ensures RepositoryOutputs(fs', rt, dest, environments, render) == RepositoryOutputs(fs, rt, dest, environments, render)
  {
    var t := rt.terraform;
    if t.valid {
      assert TerraformSource(t, MainTf) in TerraformSources(t);
      assert TerraformSource(t, VariablesTf) in TerraformSources(t);
      assert TerraformSource(t, EnvironmentTfvars) in TerraformSources(t);
    }
  }

  /** A completed generation leaves a well-formed disk whose new folders and files are its own. */
  lemma GeneratedDiskWellFormed(
    fs: FileSystem, rt: RepositoryTemplate, target: Path,
    applicationId: string, applicationName: string, componentName: string,
    environments: seq<string>, render: string -> string)
    requires LaidOut(rt) && SourcesPresent(fs, rt)
    requires DestinationReady(fs, rt, RepositoryPath(target, applicationId, applicationName, componentName), environments)
    ensures var dest := RepositoryPath(target, applicationId, applicationName, componentName);
            WellFormed(FileSystem(fs.files + RepositoryOutputs(fs, rt, dest, environments, render),
                                  fs.dirs + RepositoryFolders(rt, dest)))
  {
    var dest := RepositoryPath(target, applicationId, applicationName, componentName);
    GenerateRepositoryEffect(fs, rt, target, applicationId, applicationName, componentName, environments, render);
    RunPreservesWellFormed(fs, RepositoryPlan(rt, dest, environments), render);
  }

  /** After a generation the destination is still ready and the template files are unchanged. */
  lemma ReadyAfterGeneration(
    fs: FileSystem, rt: RepositoryTemplate, target: Path,
    applicationId: string, applicationName: string, componentName: string,
    environments: seq<string>, render: string -> string)
    requires LaidOut(rt) && SourcesPresent(fs, rt)
    requires DestinationReady(fs, rt, RepositoryPath(target, applicationId, applicationName, componentName), environments)
    ensures var dest := RepositoryPath(target, applicationId, applicationName, componentName);
            var after := FileSystem(fs.files + RepositoryOutputs(fs, rt, dest, environments, render),
                                    fs.dirs + RepositoryFolders(rt, dest));
            (&& DestinationReady(after, rt, dest, environments)
             && SourcesPresent(after, rt)
             && (rt.terraform.valid ==>
                   forall p :: p in TerraformSources(rt.terraform) ==> after.files[p] == fs.files[p])
             && (rt.jenkins.valid ==> after.files[JenkinsSource(rt.jenkins)] == fs.files[JenkinsSource(rt.jenkins)])
             && RepositoryOutputs(after, rt, dest, environments, render) == RepositoryOutputs(fs, rt, dest, environments, render))
  {
    var dest := RepositoryPath(target, applicationId, applicationName, componentName);
    var outputs := RepositoryOutputs(fs, rt, dest, environments, render);
    var after := FileSystem(fs.files + outputs, fs.dirs + RepositoryFolders(rt, dest));
    GeneratedDiskReady(fs, rt, target, applicationId, applicationName, componentName, environments, render);
    SourcesAreNotRepositoryOutputs(fs, rt, target, applicationId, applicationName, componentName, environments, render);
    OutputsFollowSources(fs, after, rt, dest, environments, render);
  }

  /** The disk a completed generation leaves is a ready destination for the same request. */
  lemma GeneratedDiskReady(
    fs: FileSystem, rt: RepositoryTemplate, target: Path,
    applicationId: string, applicationName: string, componentName: string,
    environments: seq<string>, render: string -> string)
    requires LaidOut(rt) && SourcesPresent(fs, rt)
    requires DestinationReady(fs, rt, RepositoryPath(target, applicationId, applicationName, componentName), environments)
    ensures var dest := RepositoryPath(target, applicationId, applicationName, componentName);
            DestinationReady(FileSystem(fs.files + RepositoryOutputs(fs, rt, dest, environments, render),
                                        fs.dirs + RepositoryFolders(rt, dest)), rt, dest, environments)
  {
    var dest := RepositoryPath(target, applicationId, applicationName, componentName);
    var outputs := RepositoryOutputs(fs, rt, dest, environments, render);
    var after := FileSystem(fs.files + outputs, fs.dirs + RepositoryFolders(rt, dest));
    GeneratedDiskWellFormed(fs, rt, target, applicationId, applicationName, componentName, environments, render);
    forall i | 0 < i <= |dest|
      ensures !IsFile(after, dest[..i])
    {
      assert dest[..i] in Ancestry(dest);
    }
    if rt.terraform.valid {
      TerraformOutputsKeys(fs, rt.terraform, dest, environments, render);
      assert TerraformOutputPaths(dest, environments) <= outputs.Keys;
    }
  }

  /**
   * Generating the same repository again from the same template handle
   * changes nothing: every write overwrites a file with what it already holds.
   */
  lemma RegenerationIsIdempotent(
    fs: FileSystem, rt: RepositoryTemplate, target: Path,
    applicationId: string, applicationName: string, componentName: string,
    environments: seq<string>, render: string -> string)
    requires LaidOut(rt) && SourcesPresent(fs, rt)
    requires DestinationReady(fs, rt, RepositoryPath(target, applicationId, applicationName, componentName), environments)
    ensures var first := GenerateRepository(fs, rt, target, applicationId, applicationName, componentName, environments, render);
            GenerateRepository(first.fs, rt, target, applicationId, applicationName, componentName, environments, render) == first
  {
    var dest := RepositoryPath(target, applicationId, applicationName, componentName);
    var outputs := RepositoryOutputs(fs, rt, dest, environments, render);
    var folders := RepositoryFolders(rt, dest);
    var after := FileSystem(fs.files + outputs, fs.dirs + folders);
    GenerateRepositoryEffect(fs, rt, target, applicationId, applicationName, componentName, environments, render);
    ReadyAfterGeneration(fs, rt, target, applicationId, applicationName, componentName, environments, render);
    GenerateRepositoryEffect(after, rt, target, applicationId, applicationName, componentName, environments, render);
    assert after.files + outputs == after.files;
    assert after.dirs + folders == after.dirs;
  }
}
