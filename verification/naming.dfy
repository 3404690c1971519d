/**
 * The name of a generated repository: the application identifier, the
 * application name and the component name joined by underscores, with
 * every space turned into a hyphen (`str.replace(" ", "-")`).
 */
module Naming {

  /** `s.replace(" ", "-")`: a one-character replacement keeps every position. */
  function Hyphenate(s: string): string {
    seq(|s|, i requires 0 <= i < |s| => if s[i] == ' ' then '-' else s[i])
  }

  /** The folder created under the target directory for one generation request. */
  function RepositoryName(applicationId: string, applicationName: string, componentName: string): string {
    Hyphenate(applicationId + "_" + applicationName + "_" + componentName)
  }

  /**
   * The name has no spaces, is exactly as long as the raw concatenation, and
   * differs from it only where the concatenation has a space.
   */
  lemma RepositoryNameShape(applicationId: string, applicationName: string, componentName: string)
    ensures var raw := applicationId + "_" + applicationName + "_" + componentName;
            var name := RepositoryName(applicationId, applicationName, componentName);
            && |name| == |raw|
            && ' ' !in name
            && (forall i :: 0 <= i < |raw| && raw[i] != ' ' ==> name[i] == raw[i])
            && (forall i :: 0 <= i < |raw| && raw[i] == ' ' ==> name[i] == '-')
  {
  }

  /** Replacing spaces distributes over concatenation. */
  lemma HyphenateAppend(a: string, b: string)
    ensures Hyphenate(a + b) == Hyphenate(a) + Hyphenate(b)
  {
  }

  /**
   * The name is the three identifiers, each with its spaces replaced, joined
   * by two underscores that sit right after the identifier and right after
   * the application name.
   */
  lemma RepositoryNameParts(applicationId: string, applicationName: string, componentName: string)
    ensures RepositoryName(applicationId, applicationName, componentName)
         == Hyphenate(applicationId) + "_" + Hyphenate(applicationName) + "_" + Hyphenate(componentName)
    ensures RepositoryName(applicationId, applicationName, componentName)[|applicationId|] == '_'
    ensures RepositoryName(applicationId, applicationName, componentName)[|applicationId| + 1 + |applicationName|] == '_'
  {
    var a, b, c := applicationId, applicationName, componentName;
    HyphenateAppend(a, "_");
    HyphenateAppend(a + "_", b);
    HyphenateAppend(a + "_" + b, "_");
    HyphenateAppend(a + "_" + b + "_", c);
  }

  /** The words of the repository's own example run, one at a time. */
  lemma ExampleWords()
    ensures Hyphenate("ABCD123") == "ABCD123"
    ensures Hyphenate("My Awesome Application") == "My-Awesome-Application"
    ensures Hyphenate("Infrastructure") == "Infrastructure"
  {
  }

  /** The request of the repository's own example run. */
  lemma ExampleRepositoryName()
    ensures RepositoryName("ABCD123", "My Awesome Application", "Infrastructure")
         == "ABCD123_My-Awesome-Application_Infrastructure"
  {
    RepositoryNameParts("ABCD123", "My Awesome Application", "Infrastructure");
    ExampleWords();
    ExampleJoin();
  }

  lemma ExampleJoin()
    ensures "ABCD123" + "_" + "My-Awesome-Application" + "_" + "Infrastructure"
         == "ABCD123_My-Awesome-Application_Infrastructure"
  {
  }
}
