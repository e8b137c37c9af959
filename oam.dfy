/** The parts of the Open Asset Model library the repository relies on.

    Assets, relations and properties are kept as their discriminator plus the
    dict their `to_dict()` produces.  Everything the library computes and
    whose code lies outside this model (equality and freshness of payloads,
    `override_with`, the taxonomy, the field lists of `describe_type`, the
    label and name of a payload) is a function value of a `Library`, passed
    to the code that uses it. */
module Oam {
  import opened Wrappers
  import opened Values

  /** `AssetType`, held by its enum value. */
  datatype Asset = Asset(assetType: string, attrs: Dict)

  datatype RelationType =
    | BasicDNSRelation
    | PrefDNSRelation
    | SRVDNSRelation
    | PortRelation
    | SimpleRelation
    | OtherRelationType(name: string)  // any further member of the enum

  datatype PropertyType =
    | DNSRecordProperty
    | SimpleProperty
    | SourceProperty
    | VulnProperty
    | OtherPropertyType(name: string)

  /** A relation payload: its type and its `to_dict()`. */
  datatype Relation = Relation(rtype: RelationType, attrs: Dict)

  /** A property payload: its type and its `to_dict()`. */
  datatype Property = Property(ptype: PropertyType, attrs: Dict)

  const KnownRelationNames: seq<string> :=
    ["BasicDNSRelation", "PrefDNSRelation", "SRVDNSRelation", "PortRelation", "SimpleRelation"]

  const KnownPropertyNames: seq<string> :=
    ["DNSRecordProperty", "SimpleProperty", "SourceProperty", "VulnProperty"]

  /** `relation_type.value` */
  function RelationTypeValue(t: RelationType): string {
    match t
    case BasicDNSRelation => "BasicDNSRelation"
    case PrefDNSRelation => "PrefDNSRelation"
    case SRVDNSRelation => "SRVDNSRelation"
    case PortRelation => "PortRelation"
    case SimpleRelation => "SimpleRelation"
    case OtherRelationType(name) => name
  }

  /** `property_type.value` */
  function PropertyTypeValue(t: PropertyType): string {
    match t
    case DNSRecordProperty => "DNSRecordProperty"
    case SimpleProperty => "SimpleProperty"
    case SourceProperty => "SourceProperty"
    case VulnProperty => "VulnProperty"
    case OtherPropertyType(name) => name
  }

  /** The library functions the repository calls. */
  datatype Library = Library(
    relationEquals: (Relation, Relation) -> bool,        // Relation.equals
    relationIsFresher: (Relation, Relation) -> bool,     // Relation.is_fresher_than
    relationOverride: (Relation, Relation) -> Relation,  // Relation.override_with
    relationLabel: Relation -> string,                   // Relation.label
    propertyIsFresher: (Property, Property) -> bool,     // Property.is_fresher_than
    propertyOverride: (Property, Property) -> Property,  // Property.override_with
    propertyName: Property -> string,                    // Property.name
    validRelationship: (string, string, RelationType, string) -> bool,
    relationFields: RelationType -> Option<seq<string>>, // get_relation_by_type + describe_type
    propertyFields: PropertyType -> Option<seq<string>>, // get_property_by_type + describe_type
    otherRelationTypes: set<string>,                     // enum values beyond the named ones
    otherPropertyTypes: set<string>)

  /** `RelationType(s)`: None where the enum raises ValueError. */
  function ParseRelationType(lib: Library, v: Value): (r: Option<RelationType>)
    ensures r.Some? ==> v == VStr(RelationTypeValue(r.value))
  {
    if !v.VStr? then None
    else if v.s == "BasicDNSRelation" then Some(BasicDNSRelation)
    else if v.s == "PrefDNSRelation" then Some(PrefDNSRelation)
    else if v.s == "SRVDNSRelation" then Some(SRVDNSRelation)
    else if v.s == "PortRelation" then Some(PortRelation)
    else if v.s == "SimpleRelation" then Some(SimpleRelation)
    else if v.s in lib.otherRelationTypes then Some(OtherRelationType(v.s))
    else None
  }

  /** `PropertyType(s)`: None where the enum raises ValueError. */
  function ParsePropertyType(lib: Library, v: Value): (r: Option<PropertyType>)
    ensures r.Some? ==> v == VStr(PropertyTypeValue(r.value))
  {
    if !v.VStr? then None
    else if v.s == "DNSRecordProperty" then Some(DNSRecordProperty)
    else if v.s == "SimpleProperty" then Some(SimpleProperty)
    else if v.s == "SourceProperty" then Some(SourceProperty)
    else if v.s == "VulnProperty" then Some(VulnProperty)
    else if v.s in lib.otherPropertyTypes then Some(OtherPropertyType(v.s))
    else None
  }

  /** A relation type the enum can produce. */
  predicate IsRelationMember(lib: Library, t: RelationType) {
    t.OtherRelationType? ==> t.name in lib.otherRelationTypes && t.name !in KnownRelationNames
  }

  predicate IsPropertyMember(lib: Library, t: PropertyType) {
    t.OtherPropertyType? ==> t.name in lib.otherPropertyTypes && t.name !in KnownPropertyNames
  }

  /** The enum's value parses back to the member. */
  lemma RelationTypeRoundTrip(lib: Library, t: RelationType)
    requires IsRelationMember(lib, t)
    ensures ParseRelationType(lib, VStr(RelationTypeValue(t))) == Some(t)
  {
  }

  lemma PropertyTypeRoundTrip(lib: Library, t: PropertyType)
    requires IsPropertyMember(lib, t)
    ensures ParsePropertyType(lib, VStr(PropertyTypeValue(t))) == Some(t)
  {
  }
}
