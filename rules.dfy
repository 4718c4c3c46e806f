/**
 * The slice of Gazelle's rule.Rule that the extension uses: a kind, a name,
 * public attributes written to the BUILD file and private attributes that
 * carry the extension's own targets from generation to resolution.
 */
module BuildRules {
  import opened Kotlin

  /** A Bazel label, in its string form. */
  type Label = string

  /** The attribute values the extension sets. */
  datatype AttrValue =
    | Strs(strs: seq<string>)
    | Str(str: string)
    | Flag(flag: bool)
    | Labels(labels: seq<Label>)

  /** What the `_kotlin_package` private attribute can hold. */
  datatype TargetRef =
    | LibRef(lib: KotlinLibTarget)
    | BinRef(bin: KotlinBinTarget)
    | TestRef(test: KotlinTestTarget)

  class Rule {
    const kind: string
    const name: string
    var attrs: map<string, AttrValue>
    var privateAttrs: map<string, TargetRef>

    /** rule.NewRule: a rule of the given kind and name with no attributes. */
    constructor (kind: string, name: string)
      ensures this.kind == kind && this.name == name
      ensures attrs == map[] && privateAttrs == map[]
    {
      this.kind := kind;
      this.name := name;
      attrs := map[];
      privateAttrs := map[];
    }

    /** SetAttr: sets one attribute and leaves the rest. */
    method SetAttr(key: string, value: AttrValue)
      modifies this
      ensures attrs == old(attrs)[key := value]
      ensures privateAttrs == old(privateAttrs)
    {
      attrs := attrs[key := value];
    }

    /** SetPrivateAttr: sets one private attribute and leaves the rest. */
    method SetPrivateAttr(key: string, value: TargetRef)
      modifies this
      ensures privateAttrs == old(privateAttrs)[key := value]
      ensures attrs == old(attrs)
    {
      privateAttrs := privateAttrs[key := value];
    }
  }
}
