/** The field-map projection both migration scripts start `mapDocument`
    with: for every `target: source` entry of `fieldMapping`, the target
    field takes the source document's own property, or `null` when the
    source does not have it. */
module FieldMap {
  import opened Values

  /** The school both migrations write into every mapped document. */
  const SchoolUrl: Json := Str("https://unsere-kinder-pesh-town.herokuapp.com")
  const SchoolId: Json := Str("unsere_kinder")

  /** One `fieldMapping` entry: target field name and source field name. */
  datatype Rename = Rename(target: string, source: string)

  /** The value one entry gives its target field (`hasOwnProperty`, else
      `null`). */
  function Pick(src: Document, e: Rename): Json {
    if e.source in src then src[e.source] else Null
  }

  /** The document the loop over `fm` builds from an empty object. */
  function Project(src: Document, fm: seq<Rename>): Document
    decreases |fm|
  {
    if fm == [] then map[]
    else Project(src, fm[..|fm| - 1])[fm[|fm| - 1].target := Pick(src, fm[|fm| - 1])]
  }

  /** The target field names of `fm`. */
  function Targets(fm: seq<Rename>): set<string> {
    set e | e in fm :: e.target
  }

  /** The projection has exactly the target fields. */
  lemma {:induction false} ProjectKeys(src: Document, fm: seq<Rename>)
    ensures Project(src, fm).Keys == Targets(fm)
    decreases |fm|
  {
    if fm != [] {
      var init := fm[..|fm| - 1];
      ProjectKeys(src, init);
      assert fm == init + [fm[|fm| - 1]];
      assert Targets(fm) == Targets(init) + {fm[|fm| - 1].target};
    }
  }

  /** A target field no later entry writes again holds exactly what its
      own entry picks from the source. */
  lemma {:induction false} ProjectAt(src: Document, fm: seq<Rename>, i: nat)
    requires i < |fm| && forall j :: i < j < |fm| ==> fm[j].target != fm[i].target
    ensures fm[i].target in Project(src, fm)
    ensures Project(src, fm)[fm[i].target] == (if fm[i].source in src then src[fm[i].source] else Null)
    decreases |fm|
  {
    if i < |fm| - 1 {
      ProjectAt(src, fm[..|fm| - 1], i);
    }
  }

  /** The `for (const [targetField, sourceField] of Object.entries(...))`
      loop of `mapDocument`. */
  method MapFields(src: Document, fm: seq<Rename>) returns (mapped: Document)
    ensures mapped == Project(src, fm)
  {
    mapped := map[];
    for i := 0 to |fm|
      invariant mapped == Project(src, fm[..i])
    {
      assert fm[..i + 1][..i] == fm[..i];
      if fm[i].source in src {
        mapped := mapped[fm[i].target := src[fm[i].source]];
      } else {
        mapped := mapped[fm[i].target := Null];
      }
    }
    assert fm[..|fm|] == fm;
  }
}
