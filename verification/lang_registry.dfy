/** The registry of languages by name, filled with Python, Java and Rust at
    start-up. Go and TypeScript exist but are never registered. */
module LangRegistry {
  import opened Wrappers
  import opened Languages

  /** The registrations made when the registry module loads. */
  function InitialLanguages(): (m: map<string, Language>)
    ensures m.Keys == {"Python", "Java", "Rust"}
  {
    map["Python" := Python, "Java" := Java, "Rust" := Rust]
  }

  class LanguageRegistry {
    var languages: map<string, Language>

    constructor()
      ensures languages == InitialLanguages()
    {
      languages := map[];
      new;
      Register("Python", Python);
      Register("Java", Java);
      Register("Rust", Rust);
    }

    /** `registerLanguage(name, language)`: a later registration replaces an
        earlier one under the same name. */
    method Register(name: string, language: Language)
      modifies this
      ensures languages == old(languages)[name := language]
    {
      languages := languages[name := language];
    }

    /** `getLanguage(name)`: looked up by exact, case-sensitive name. */
    function Get(name: string): (r: Option<Language>)
      reads this
      ensures r.Some? <==> name in languages
      ensures r.Some? ==> r.value == languages[name]
    {
      if name in languages then Some(languages[name]) else None
    }
  }

  /** An example, not a general property: after start-up, names resolve
      case-sensitively, and Go and TypeScript are unknown. `Get` and
      `InitialLanguages` state the general facts. */
  method StartupLookups() returns (python: Option<Language>, lower: Option<Language>, go: Option<Language>, ts: Option<Language>)
    ensures python == Some(Python)
    ensures lower == None && go == None && ts == None
  {
    var registry := new LanguageRegistry();
    python := registry.Get("Python");
    lower := registry.Get("python");
    go := registry.Get("Go");
    ts := registry.Get("TypeScript");
  }

  /** An example of use, not a new property: registering a name makes it
      resolve to the new language, and leaves every other name as it was.
      `Register` and `Get` state the general facts. */
  method RegisterThenGet(registry: LanguageRegistry, name: string, language: Language, other: string)
    returns (found: Option<Language>, before: Option<Language>, after: Option<Language>)
    requires other != name
    modifies registry
    ensures found == Some(language)
    ensures after == before
  {
    before := registry.Get(other);
    registry.Register(name, language);
    found := registry.Get(name);
    after := registry.Get(other);
  }
}
