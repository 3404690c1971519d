# Boilerplate application generator, modelled in Dafny

The boilerplate generator turns a repository template into the skeleton of a
new deployment repository. A template named `T` lives in `templates/T` and has:

- `definition.json`, the top-level marker;
- `jenkins/Jenkinsfile`, the Jenkins pipeline facet;
- `terraform/main.tf`, `terraform/variables.tf` and
  `terraform/environment.tfvars`, the Terraform facet.

A generation request names an application identifier, an application name, a
component name and a list of environments. It produces the folder
`<target>/<id>_<name>_<component>` (spaces turned into hyphens) holding:

- `Terraform_Configuration/main.tf` and `Terraform_Configuration/variables.tf`;
- one `Terraform_Variables/<env>.tfvars` per environment;
- a verbatim copy of the `Jenkinsfile`.

Each facet is generated only if its validity check passed when the template
handle was built.

The model has five modules:

- `Os` (os.dfy): the slice of the operating system the generator uses.
  - A filesystem is a map from paths to file contents plus a set of folders.
  - Each call the generator makes is an `Action`:
    - the `os.path.exists` / `os.makedirs` pair;
    - `open(p, "wb")` written with a jinja2 render;
    - `shutil.copy`.
  - `Step` performs one call. It returns `Completed(fs)` or
    `Aborted(fs, error)`, where an aborted call keeps whatever it had
    already changed on disk. For example, `open(..., "wb")` truncates the
    output before jinja2 looks for the template.
  - `Run` performs a list of calls and stops at the first exception.
- `Naming` (naming.dfy): the repository-name expression.
- `Templates` (templates.dfy):
  - the three validators and the handles built from them;
  - the `definition.json` filter that lists the available templates.
- `Generator` (generator.dfy):
  - `generate_terraform_configuration`, `generate_jenkins_configuration` and
    `generate_repository`, each as its ordered list of calls (its plan);
  - the write order;
  - what the Terraform and Jenkins steps leave on disk.
- `Repository` (repository.dfy): theorems about a whole generation:
  - what it leaves on disk;
  - what it may touch;
  - how many files it produces;
  - that running it twice changes nothing more.

Jinja2 rendering is the parameter `render: string -> string`: the text of a
template maps to the text written. The source renders with an empty context,
so no environment name or request data reaches it.

Three properties of the code shape the model:

- The Terraform outputs go to `Terraform_Configuration` and
  `Terraform_Variables` (boilerplate_generator.py lines 42 and 55).
- `generate_repository` never reads the top-level `valid` flag. A template
  without `definition.json` is generated like any other.
  `Repository.IgnoresTopLevelValid` states this.
- The README and git placeholders do nothing and return `False`. They make
  no call in the model.

## Model

| member | source | states |
|---|---|---|
| Os.Step | boilerplate_application_generator/boilerplate_generator.py:43-47 | one guarded `makedirs`, one `open(..., "wb")` write or one `shutil.copy` changes no file except its own target(s) and only ever adds folders, at most the ancestry of the folder it creates |
| Os.Run | boilerplate_application_generator/boilerplate_generator.py:41-61 | a list of calls run in order, stopping at the first exception, changes no file outside the targets of its calls and adds only the folders its `makedirs` calls create |
| Os.StepPreservesWellFormed | boilerplate_application_generator/boilerplate_generator.py:43-44 | every call, completed or aborted, keeps the disk well formed: no path both file and folder, every entry inside an existing folder |
| Os.RunPreservesWellFormed | boilerplate_application_generator/boilerplate_generator.py:90-109 | a whole run of calls keeps the disk well formed |
| Os.RunAppend | boilerplate_application_generator/boilerplate_generator.py:103-109 | running two lists of calls one after the other is the same as running their concatenation, and the second list never runs after an exception |
| Os.WellFormedAncestors | boilerplate_application_generator/boilerplate_generator.py:98-99 | on a well-formed disk every non-empty prefix of a folder is a folder |
| Os.MakeDirsEffect | boilerplate_application_generator/boilerplate_generator.py:98-99 | when no prefix of the path is a regular file, the guarded `os.makedirs` completes, whether the folder existed or not, and leaves the folder and all its ancestors |
| Os.MakeDirsInDirectory | boilerplate_application_generator/boilerplate_generator.py:42-44 | creating a subfolder of a folder whose ancestors all exist adds exactly that subfolder, and creating an existing one is a no-op |
| Os.RenderEffect | boilerplate_application_generator/boilerplate_generator.py:46-47 | rendering a present template into an openable file that is not the template itself completes and overwrites exactly that file with the render of the template text |
| Os.RunRendersFrom | boilerplate_application_generator/boilerplate_generator.py:59-61 | writing the same template to a list of openable targets leaves every target with that one render, duplicates included, and changes nothing else |
| Os.TouchedAppend | boilerplate_application_generator/boilerplate_generator.py:103-109 | the files and folders a concatenation may touch are the union of those of its parts |
| Naming.RepositoryNameShape | boilerplate_application_generator/boilerplate_generator.py:92 | the repository name has no spaces, is exactly as long as `id + "_" + name + "_" + component`, keeps every other character and puts `-` where each space was |
| Naming.RepositoryNameParts | boilerplate_application_generator/boilerplate_generator.py:92 | the name is the three identifiers, each with spaces hyphenated, joined by `_`, and the two separators sit right after the identifier and right after the application name |
| Naming.ExampleRepositoryName | boilerplate_application_generator/boilerplate_generator.py:139-144 | the request `ABCD123` / `My Awesome Application` / `Infrastructure` gives the folder `ABCD123_My-Awesome-Application_Infrastructure` |
| Templates.ValidateTerraformStructure | boilerplate_application_generator/boilerplate_generator.py:27-35 | the Terraform facet is valid exactly when `environment.tfvars`, `main.tf` and `variables.tf` are all regular files in its folder, so any one missing makes it invalid |
| Templates.NewRepositoryTemplate | boilerplate_application_generator/boilerplate_generator.py:67-81 | the handle is laid out under `<templates>/<name>`; it is valid exactly when `definition.json` is a file, its Jenkins facet exactly when `jenkins/Jenkinsfile` is, and its Terraform facet exactly when all three Terraform files are |
| Templates.AvailableTemplates | boilerplate_application_generator/boilerplate_generator.py:115-122 | a name is listed exactly when it is a directory entry with a `definition.json`, and the list is no longer than the directory listing |
| Templates.ListTemplates | boilerplate_application_generator/boilerplate_generator.py:115-122 | `os.listdir` of the templates folder raises unless it is a folder: `NotADirectoryError` when it or an ancestor is a regular file, `FileNotFoundError` otherwise; when it is a folder, a name is reported exactly when it is listed and has a `definition.json` |
| Templates.ListTemplatesExactlyOnce | boilerplate_application_generator/boilerplate_generator.py:115-122 | over a real directory listing, the templates are listed exactly when the templates folder is a folder, and then each template with a `definition.json` is reported once and every other entry is left out |
| Templates.AvailableTemplatesAppend | boilerplate_application_generator/boilerplate_generator.py:118-122 | listing is a filter that distributes over splitting the directory listing, so the listing order is kept |
| Templates.AvailableTemplatesCount | boilerplate_application_generator/boilerplate_generator.py:118-122 | each name is reported as many times as it is listed if it has a `definition.json`, and never otherwise |
| Templates.AvailableTemplatesExactlyOnce | boilerplate_application_generator/boilerplate_generator.py:118-122 | over a real directory listing, every template with a `definition.json` is reported exactly once and every other entry is left out |
| Generator.TerraformWriteOrder | boilerplate_application_generator/boilerplate_generator.py:42-62 | the Terraform step writes `main.tf`, then `variables.tf`, then one `.tfvars` per environment in list order: `2 + |environments|` writes |
| Generator.RepositoryWriteOrder | boilerplate_application_generator/boilerplate_generator.py:97-109 | a generation writes `main.tf`, `variables.tf` and the `.tfvars` files in environment order first, and the Jenkinsfile last; an invalid facet writes nothing |
| Generator.TfvarsFileInjective | boilerplate_application_generator/boilerplate_generator.py:60 | two environments name the same variables file exactly when they are the same name |
| Generator.VariablesPathsCount | boilerplate_application_generator/boilerplate_generator.py:59-60 | there are as many distinct variables files as distinct environment names |
| Generator.TerraformTouches | boilerplate_application_generator/boilerplate_generator.py:42-61 | the Terraform step may write exactly its output files and create exactly the two output folders with their ancestors |
| Generator.TerraformDistinctFiles | boilerplate_application_generator/boilerplate_generator.py:42-62 | the Terraform step produces `2 + |distinct environments|` files: a repeated environment overwrites its own file |
| Generator.TerraformHeadEffect | boilerplate_application_generator/boilerplate_generator.py:42-57 | the two folders and two configuration files come out as the render of `main.tf` and of `variables.tf`, with both folders present |
| Generator.TerraformConfigurationEffect | boilerplate_application_generator/boilerplate_generator.py:37-63 | on a ready disk the Terraform step completes; every output holds the render of its template, both folders exist and nothing else changed |
| Generator.TerraformVariablesIdentical | boilerplate_application_generator/boilerplate_generator.py:59-61 | every environment's `.tfvars` file exists and holds the same text, the render of `environment.tfvars` |
| Generator.JenkinsCopyOutcome | boilerplate_application_generator/boilerplate_generator.py:16-17 | the copy completes exactly when the Jenkinsfile is a regular file, the resolved target differs from it and can be opened; it then writes the Jenkinsfile byte for byte and changes nothing else, and when it fails the disk is unchanged |
| Generator.JenkinsConfigurationEffect | boilerplate_application_generator/boilerplate_generator.py:16-17 | a valid Jenkins facet copied into a folder yields `<dest>/Jenkinsfile` identical to the template's |
| Generator.JenkinsCopyNeedsValidTemplate | boilerplate_application_generator/boilerplate_generator.py:11-17 | without the Jenkinsfile the copy would raise and change nothing, which is what the validity check guards against |
| Repository.NewTemplateSourcesPresent | boilerplate_application_generator/boilerplate_generator.py:66-74 | a freshly built handle finds on disk every template file of each facet it marked valid |
| Repository.RepositoryNameIsNotJenkinsDir | boilerplate_application_generator/boilerplate_generator.py:92-93 | a repository name always contains `_`, so the generated folder is never a template's `jenkins` folder |
| Repository.JenkinsSourceIsNotOutput | boilerplate_application_generator/boilerplate_generator.py:16-17 | the template's Jenkinsfile is neither the copy nor any Terraform output |
| Repository.GenerateRepositoryEffect | boilerplate_application_generator/boilerplate_generator.py:90-112 | on a ready destination a generation completes; the repository folder and its ancestors exist, each valid facet's outputs hold what it writes, the Terraform folders exist only for a valid Terraform facet, and nothing else changed |
| Repository.GenerateFromTemplatesEffect | boilerplate_application_generator/boilerplate_generator.py:66-112 | the same for the handle the constructor builds from the disk, whose valid facets always find their files |
| Repository.OnlyJenkinsFacet | boilerplate_application_generator/boilerplate_generator.py:103-109 | with an incomplete Terraform facet and a valid Jenkins facet the repository folder receives only the Jenkinsfile and no Terraform folder |
| Repository.TerraformAbortSkipsJenkins | boilerplate_application_generator/boilerplate_generator.py:97-109 | when creating the folder or the Terraform facet raises, the generation ends with that outcome and `<dest>/Jenkinsfile` is left as it was |
| Repository.RepositoryTouches | boilerplate_application_generator/boilerplate_generator.py:97-109 | the files a generation may write are exactly the outputs of its valid facets, and it may create only the repository folder, its ancestors and, for a valid Terraform facet, the two Terraform folders; an invalid facet contributes nothing |
| Repository.GenerateRepositoryFrame | boilerplate_application_generator/boilerplate_generator.py:93-109 | whether it completes or not, a generation changes no file outside the repository folder and adds no folder other than that folder, its ancestors and the Terraform folders |
| Repository.IgnoresTopLevelValid | boilerplate_application_generator/boilerplate_generator.py:90-112 | the outcome of a generation does not depend on the template's top-level `valid` flag |
| Repository.RepositoryFileCount | boilerplate_application_generator/boilerplate_generator.py:97-109 | a generation leaves `2 + |distinct environments|` files for a valid Terraform facet and one more for a valid Jenkins facet |
| Repository.ExampleGenerationFileCount | boilerplate_application_generator/boilerplate_generator.py:139-145 | with both facets valid and environments `dev` and `test`, the repository folder receives five files |
| Repository.OutputsFollowSources | boilerplate_application_generator/boilerplate_generator.py:37-63 | what a generation writes depends on the disk only through the template files |
| Repository.ReadyAfterGeneration | boilerplate_application_generator/boilerplate_generator.py:90-112 | after a generation the destination is still ready, the template files are still present with unchanged contents and a second generation would write the same contents |
| Repository.RegenerationIsIdempotent | boilerplate_application_generator/boilerplate_generator.py:90-112 | generating the same repository again from the same handle changes nothing |

## Left out

- Console output is not modelled because it has no effect on disk. This
  covers the `print` calls and `generate_template_print`.
- The module-level example run at the bottom of the file is not modelled. The
  request it makes appears only as `Naming.ExampleRepositoryName` and
  `Repository.ExampleGenerationFileCount`.
- The README and git placeholders are no-ops and are not modelled. They
  return `False` and touch nothing.
- Jinja2 is an opaque parameter. Its loader, template syntax and rendering
  are outside this model, and so is `.encode()`.
  - The loader is taken to be rooted at the same templates folder the
    validators use: the `loaderRoot` field, set by the constructor.
  - In the source the loader is a package loader and the validators use
    `sys.path[0]/templates`, so the two can differ.
- `os.path.join(sys.path[0], 'templates')` is the parameter `templatesPath`.
- The order of `os.listdir` is the parameter `listing`.
  `Templates.AvailableTemplates` and `Templates.ListTemplates` accept any
  listing. Only `Templates.AvailableTemplatesExactlyOnce` and
  `Templates.ListTemplatesExactlyOnce` assume `ListsDirectory`: the listing
  holds every entry of the folder exactly once.
- Path segments are atomic names. A name containing a path separator or `..`
  would not stay inside the repository folder. Such names are not modelled:
  an environment name, a template name or an identifier counts as one
  segment.
- Operating-system failures that do not follow from the shape of the disk are
  not modelled: permissions, a full disk, a write cut short. Only the
  exceptions the calls raise because of files and folders on the disk are.
- Repository.GenerateRepositoryEffect: states the result only for a ready
  destination. When a folder on the way is a regular file, or a Terraform
  output path is a folder, the generation aborts part-way. When
  `<dest>/Jenkinsfile` is a folder, the copy instead completes into
  `<dest>/Jenkinsfile/Jenkinsfile`, as `Generator.JenkinsCopyOutcome` states.
  For those cases only `Repository.GenerateRepositoryFrame` and
  `Repository.TerraformAbortSkipsJenkins` apply. They bound what may have
  changed but not how far the run got.
- Generator.TerraformConfigurationEffect: says nothing about a Terraform
  template file that disappears after validation. If it does, the step aborts
  with `TemplateNotFound` and leaves the file it had just opened truncated to
  empty. `Os.Step` models this, but no lemma states it.
- Repository.RepositoryFileCount: compares path segments exactly, as a
  case-sensitive disk does. On a case-insensitive disk, such as the Windows
  target of the example request, `dev` and `Dev` name one `.tfvars` file.
  There the count `2 + |distinct environments|` is too high. Case folding is
  not modelled.
- Generator.TerraformDistinctFiles: counts with the same case-sensitive path
  comparison, so it overcounts on a case-insensitive disk in the same way.
- Repository.GenerateRepositoryFrame: holds only on a disk without symbolic
  links, because links are not modelled. In the model a path names at most
  one entry, so two paths never alias. `os.path.exists`, `open` and
  `shutil.copy` all follow links. A `Terraform_Configuration` link to a folder
  elsewhere therefore makes `main.tf` land outside the repository folder. A
  `Jenkinsfile` link to a file makes the copy overwrite that file. The same
  holds for `Repository.RepositoryTouches`, `Os.Step` and `Os.Run`.
