/** The practice-text collections, keyed by mode. The client generator
    (client/src/lib/helpers/textGenerator.ts) ships seven lists: ten plain
    sentences, ten romantic lines, and five code snippets for each of
    developer (JavaScript), python, java, csharp and go. The server store
    (server/storage.ts) ships the first three of them, with the same texts. */
module Corpus {

  datatype Library = Library(collections: map<string, seq<string>>)

  const ClientModes: set<string> := {"normal", "flirty", "developer", "python", "java", "csharp", "go"}

  const ServerModes: set<string> := {"normal", "flirty", "developer"}

  /** A usable list: at least one passage, and no empty passage. */
  predicate WellFormed(c: seq<string>) {
    |c| > 0 && forall p :: p in c ==> p != ""
  }

  /** `lib` holds exactly the lists for `modes`, each well formed, and a
      `normal` list to fall back on. Every shipped library has this shape. */
  ghost predicate Stocks(lib: Library, modes: set<string>) {
    && lib.collections.Keys == modes
    && "normal" in modes
    && forall m :: m in modes ==> WellFormed(lib.collections[m])
  }

  /** `textCollections[mode] || textCollections.normal`. */
  function Collection(lib: Library, mode: string): seq<string>
    requires "normal" in lib.collections
  {
    if mode in lib.collections then lib.collections[mode] else lib.collections["normal"]
  }

  /** An unrecognised mode silently uses the `normal` list, and whatever the
      mode, the list drawn from is usable. */
  lemma CollectionOfAnyMode(lib: Library, modes: set<string>, mode: string)
    requires Stocks(lib, modes)
    ensures mode !in modes ==> Collection(lib, mode) == lib.collections["normal"]
    ensures mode in modes ==> Collection(lib, mode) == lib.collections[mode]
    ensures WellFormed(Collection(lib, mode))
  {
  }
}
