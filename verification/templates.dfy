/**
 * Repository templates on disk and the checks that decide which of them,
 * and which of their two facets (the Jenkins pipeline and the Terraform
 * configuration), are usable. A template named `n` lives in
 * `<templates>/<n>` and is laid out as
 *
 *   definition.json
 *   jenkins/Jenkinsfile
 *   terraform/environment.tfvars, terraform/main.tf, terraform/variables.tf
 *
 * Each validity flag is computed once, when the handle is built, from the
 * filesystem as it is then.
 */
module Templates {
  import opened Os

  const DefinitionFile := "definition.json"
  const JenkinsDir := "jenkins"
  const Jenkinsfile := "Jenkinsfile"
  const TerraformDir := "terraform"
  const EnvironmentTfvars := "environment.tfvars"
  const MainTf := "main.tf"
  const VariablesTf := "variables.tf"

  /** The Jenkins facet: `<templates>/<name>/jenkins`. */
  datatype JenkinsTemplate = JenkinsTemplate(templatePath: Path, valid: bool)

  /**
   * The Terraform facet: `<templates>/<name>/terraform`. Its files are loaded
   * through jinja2 as `<name>/terraform/<file>` below `loaderRoot`.
   */
  datatype TerraformTemplate = TerraformTemplate(
    templatePath: Path, templateName: string, loaderRoot: Path, valid: bool)

  /** A named template with its two facets. */
  datatype RepositoryTemplate = RepositoryTemplate(
    templateName: string,
    templatesPath: Path,
    templatePath: Path,
    valid: bool,
    jenkins: JenkinsTemplate,
    terraform: TerraformTemplate)

  function ValidateJenkinsStructure(fs: FileSystem, templatePath: Path): bool {
    IsFile(fs, templatePath + [Jenkinsfile])
  }

  function NewJenkinsTemplate(fs: FileSystem, templatesPath: Path, templateName: string): JenkinsTemplate {
    var path := templatesPath + [templateName, JenkinsDir];
    JenkinsTemplate(path, ValidateJenkinsStructure(fs, path))
  }

  /** The three files a usable Terraform facet holds. */
  function TerraformFiles(templatePath: Path): set<Path> {
    {templatePath + [EnvironmentTfvars], templatePath + [MainTf], templatePath + [VariablesTf]}
  }

  /** Checks the three files in turn and gives up at the first one missing. */
  function ValidateTerraformStructure(fs: FileSystem, templatePath: Path): (valid: bool)
    ensures valid <==> TerraformFiles(templatePath) <= fs.files.Keys
  {
    if !IsFile(fs, templatePath + [EnvironmentTfvars]) then false
    else if !IsFile(fs, templatePath + [MainTf]) then false
    else if !IsFile(fs, templatePath + [VariablesTf]) then false
    else true
  }

  /** The jinja2 loader is taken to be rooted at the templates directory itself. */
  function NewTerraformTemplate(fs: FileSystem, templatesPath: Path, templateName: string): TerraformTemplate {
    var path := templatesPath + [templateName, TerraformDir];
    TerraformTemplate(path, templateName, templatesPath, ValidateTerraformStructure(fs, path))
  }

  function ValidateConfigurationTemplate(fs: FileSystem, templatePath: Path): bool {
    IsFile(fs, templatePath + [DefinitionFile])
  }

  /** The facets sit where the constructor puts them: `<templates>/<name>/jenkins` and `.../terraform`. */
  predicate LaidOut(t: RepositoryTemplate) {
    && t.templatePath == t.templatesPath + [t.templateName]
    && t.jenkins.templatePath == t.templatesPath + [t.templateName, JenkinsDir]
    && t.terraform.templatePath == t.templatesPath + [t.templateName, TerraformDir]
    && t.terraform.templateName == t.templateName
    && t.terraform.loaderRoot == t.templatesPath
  }

  /** `RepositoryTemplate(name)` with `templatesPath` standing for `<script dir>/templates`. */
  function NewRepositoryTemplate(fs: FileSystem, templatesPath: Path, templateName: string): (t: RepositoryTemplate)
    ensures LaidOut(t) && t.templatesPath == templatesPath && t.templateName == templateName
    ensures t.valid <==> templatesPath + [templateName, DefinitionFile] in fs.files
    ensures t.jenkins.valid <==> templatesPath + [templateName, JenkinsDir, Jenkinsfile] in fs.files
    ensures t.terraform.valid <==>
              && templatesPath + [templateName, TerraformDir, EnvironmentTfvars] in fs.files
              && templatesPath + [templateName, TerraformDir, MainTf] in fs.files
              && templatesPath + [templateName, TerraformDir, VariablesTf] in fs.files
  {
    var path := templatesPath + [templateName];
    assert path + [DefinitionFile] == templatesPath + [templateName, DefinitionFile];
    var jenkins := NewJenkinsTemplate(fs, templatesPath, templateName);
    assert jenkins.templatePath + [Jenkinsfile] == templatesPath + [templateName, JenkinsDir, Jenkinsfile];
    var terraform := NewTerraformTemplate(fs, templatesPath, templateName);
    assert terraform.templatePath + [MainTf] == templatesPath + [templateName, TerraformDir, MainTf];
    assert terraform.templatePath + [VariablesTf] == templatesPath + [templateName, TerraformDir, VariablesTf];
    assert terraform.templatePath + [EnvironmentTfvars] == templatesPath + [templateName, TerraformDir, EnvironmentTfvars];
    RepositoryTemplate(templateName, templatesPath, path, ValidateConfigurationTemplate(fs, path), jenkins, terraform)
  }

  /** Whether `templatesPath/<name>` passes the top-level check. */
  predicate Listed(fs: FileSystem, templatesPath: Path, templateName: string) {
    NewRepositoryTemplate(fs, templatesPath, templateName).valid
  }

  /**
   * The names `GetAvailableRepositoryTemplates` reports, given `listing`, the
   * entries of the templates directory in the order `os.listdir` returns them.
   */
  function AvailableTemplates(fs: FileSystem, templatesPath: Path, listing: seq<string>): (names: seq<string>)
    ensures forall n :: n in names <==> n in listing && templatesPath + [n, DefinitionFile] in fs.files
    ensures |names| <= |listing|
  {
    if listing == [] then []
    else
      (if Listed(fs, templatesPath, listing[0]) then [listing[0]] else [])
      + AvailableTemplates(fs, templatesPath, listing[1..])
  }

  /** What `GetAvailableRepositoryTemplates` gets: the template names, or the exception of `os.listdir`. */
  datatype Listing = Available(names: seq<string>) | ListingFailed(error: FsError)

  /**
   * `GetAvailableRepositoryTemplates()`: `os.listdir` of the templates
   * directory raises unless it is a directory (`NotADirectoryError` when it
   * or one of its ancestors is a regular file, `FileNotFoundError` when it
   * is missing); otherwise the entries with a definition file are reported.
   */
  function ListTemplates(fs: FileSystem, templatesPath: Path, listing: seq<string>): (r: Listing)
    ensures r.ListingFailed? <==> !IsDir(fs, templatesPath)
    ensures r.ListingFailed? ==>
              r.error == (if exists i :: 0 < i <= |templatesPath| && IsFile(fs, templatesPath[..i])
                          then NotADirectory(templatesPath)
                          else NoSuchDirectory(templatesPath))
    ensures r.Available? ==>
              forall n :: n in r.names <==> n in listing && templatesPath + [n, DefinitionFile] in fs.files
  {
    if IsDir(fs, templatesPath) then Available(AvailableTemplates(fs, templatesPath, listing))
    else if exists i :: 0 < i <= |templatesPath| && IsFile(fs, templatesPath[..i]) then ListingFailed(NotADirectory(templatesPath))
    else ListingFailed(NoSuchDirectory(templatesPath))
  }

  /** Listing is a filter: it distributes over splitting the directory listing, so order is kept. */
  lemma {:induction false} AvailableTemplatesAppend(fs: FileSystem, templatesPath: Path, a: seq<string>, b: seq<string>)
    ensures AvailableTemplates(fs, templatesPath, a + b)
         == AvailableTemplates(fs, templatesPath, a) + AvailableTemplates(fs, templatesPath, b)
    decreases |a|
  {
    if a == [] {
      assert a + b == b;
    } else {
      assert (a + b)[0] == a[0];
      assert (a + b)[1..] == a[1..] + b;
      AvailableTemplatesAppend(fs, templatesPath, a[1..], b);
    }
  }

  /** Each name is reported as often as it is listed if it passes the check, and never otherwise. */
  lemma {:induction false} AvailableTemplatesCount(fs: FileSystem, templatesPath: Path, listing: seq<string>, n: string)
    ensures multiset(AvailableTemplates(fs, templatesPath, listing))[n]
         == if templatesPath + [n, DefinitionFile] in fs.files then multiset(listing)[n] else 0
    decreases |listing|
  {
    if listing != [] {
      AvailableTemplatesCount(fs, templatesPath, listing[1..], n);
      assert listing == [listing[0]] + listing[1..];
    }
  }

  /** No entry occurs twice. */
  ghost predicate Distinct(s: seq<string>) {
    forall i, j :: 0 <= i < j < |s| ==> s[i] != s[j]
  }

  lemma {:induction false} DistinctCount(s: seq<string>, n: string)
    requires Distinct(s)
    ensures multiset(s)[n] == if n in s then 1 else 0
    decreases |s|
  {
    if s != [] {
      DistinctCount(s[1..], n);
      assert s == [s[0]] + s[1..];
      assert s[0] !in s[1..] by {
        forall j | 0 <= j < |s[1..]|
          ensures s[1..][j] != s[0]
        {
          assert s[1..][j] == s[j + 1];
        }
      }
    }
  }

  /** `listing` is what `os.listdir(dir)` may return: every entry of `dir`, each once. */
  ghost predicate ListsDirectory(fs: FileSystem, dir: Path, listing: seq<string>) {
    && Distinct(listing)
    && forall n :: n in listing <==> Exists(fs, dir + [n])
  }

  /**
   * Over a real directory listing, every template that has a definition file
   * is reported exactly once and every other entry is left out.
   */
  lemma AvailableTemplatesExactlyOnce(fs: FileSystem, templatesPath: Path, listing: seq<string>, n: string)
    requires WellFormed(fs)
    requires ListsDirectory(fs, templatesPath, listing)
    ensures multiset(AvailableTemplates(fs, templatesPath, listing))[n]
         == if templatesPath + [n, DefinitionFile] in fs.files then 1 else 0
  {
    AvailableTemplatesCount(fs, templatesPath, listing, n);
    DistinctCount(listing, n);
    var definition := templatesPath + [n, DefinitionFile];
    if definition in fs.files {
      assert Parent(definition) == templatesPath + [n];
    }
  }

  /**
   * Over a real directory listing, the templates directory is listed exactly
   * when it is a directory, and then every template with a definition file
   * is reported once and every other entry is left out.
   */
  lemma ListTemplatesExactlyOnce(fs: FileSystem, templatesPath: Path, listing: seq<string>, n: string)
    requires WellFormed(fs)
    requires ListsDirectory(fs, templatesPath, listing)
    ensures var r := ListTemplates(fs, templatesPath, listing);
            && (r.Available? <==> IsDir(fs, templatesPath))
            && (r.Available? ==>
                  multiset(r.names)[n] == if templatesPath + [n, DefinitionFile] in fs.files then 1 else 0)
  {
    if IsDir(fs, templatesPath) {
      AvailableTemplatesExactlyOnce(fs, templatesPath, listing, n);
    }
  }
}
