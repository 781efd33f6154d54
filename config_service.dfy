/** The appointment-type configuration kept in `localStorage` under one key,
    with the built-in defaults when nothing usable is stored. */
module ConfigService {
  import opened Wrappers
  import opened Text
  import opened Json
  import opened Storage
  import opened Seqs

  datatype TypeConfig = TypeConfig(id: string, displayLabel: string, duration: int, color: string, icon: string)

  const StorageKey: string := "vet_appointment_types"

  /** `DEFAULT_TYPES`. */
  const DefaultTypes: seq<TypeConfig> := [
    TypeConfig("Consulta", "Consulta", 30, "bg-primary", "stethoscope"),
    TypeConfig("Vacuna", "Vacuna", 20, "bg-emerald-500", "vaccines"),
    TypeConfig("Cirugía", "Cirugía", 120, "bg-secondary", "precision_manufacturing"),
    TypeConfig("Examen", "Examen", 30, "bg-accent", "biotech")
  ]

  /** The defaults: four types with distinct ids, each id equal to its label,
      lasting 30, 20, 120 and 30 minutes. */
  lemma DefaultTypesShape()
    ensures |DefaultTypes| == 4
    ensures forall i, j :: 0 <= i < j < |DefaultTypes| ==> DefaultTypes[i].id != DefaultTypes[j].id
    ensures forall i :: 0 <= i < |DefaultTypes| ==> DefaultTypes[i].id == DefaultTypes[i].displayLabel
    ensures [DefaultTypes[0].duration, DefaultTypes[1].duration, DefaultTypes[2].duration, DefaultTypes[3].duration]
      == [30, 20, 120, 30]
  {
  }

  // ---------------------------------------------------------------------
  // `JSON.stringify` and `JSON.parse` of the list

  /** The text of one object followed by `k`, its keys in the order the
      defaults declare them. */
  function TypeText(x: TypeConfig, k: string): string {
    IdKey + (EncodeString(x.id) + (LabelKey + (EncodeString(x.displayLabel)
      + (DurationKey + (EncodeInt(x.duration) + (ColorKey + (EncodeString(x.color)
      + (IconKey + (EncodeString(x.icon) + ("}" + k))))))))))
  }

  /** The objects of `xs` separated by commas, followed by `k`. */
  function ItemsText(xs: seq<TypeConfig>, k: string): string
    requires xs != []
  {
    if |xs| == 1 then TypeText(xs[0], k) else TypeText(xs[0], "," + ItemsText(xs[1..], k))
  }

  /** `JSON.stringify(types)`. */
  function Stringify(xs: seq<TypeConfig>): (text: string)
    ensures text != [] && text[0] == '['
  {
    if xs == [] then "[]" else "[" + ItemsText(xs, "]")
  }

  /** The key `key` followed by a string value. */
  function ParseStringField(key: string, t: string): (r: Option<(string, string)>)
    ensures r.Some? ==> |r.value.1| < |t|
  {
    match Expect(key, t)
    case None => None
    case Some(t1) => DecodeString(t1)
  }

  const IdKey: string := "{\"id\":"
  const LabelKey: string := ",\"label\":"
  const DurationKey: string := ",\"duration\":"
  const ColorKey: string := ",\"color\":"
  const IconKey: string := ",\"icon\":"

  /** One object, read field by field in the order `StringifyType` writes them. */
  function ParseType(t: string): (r: Option<(TypeConfig, string)>)
    ensures r.Some? ==> |r.value.1| < |t|
  {
    match ParseStringField(IdKey, t)
    case None => None
    case Some((id, t1)) => ParseFromLabel(id, t1)
  }

  function ParseFromLabel(id: string, t: string): (r: Option<(TypeConfig, string)>)
    ensures r.Some? ==> |r.value.1| < |t|
  {
    match ParseStringField(LabelKey, t)
    case None => None
    case Some((displayLabel, t1)) => ParseFromDuration(id, displayLabel, t1)
  }

  function ParseFromDuration(id: string, displayLabel: string, t: string): (r: Option<(TypeConfig, string)>)
    ensures r.Some? ==> |r.value.1| < |t|
  {
    match Expect(DurationKey, t)
    case None => None
    case Some(t1) =>
      match DecodeInt(t1)
      case None => None
      case Some((duration, t2)) => ParseFromColor(id, displayLabel, duration, t2)
  }

  function ParseFromColor(id: string, displayLabel: string, duration: int, t: string): (r: Option<(TypeConfig, string)>)
    ensures r.Some? ==> |r.value.1| < |t|
  {
    match ParseStringField(ColorKey, t)
    case None => None
    case Some((color, t1)) => ParseFromIcon(id, displayLabel, duration, color, t1)
  }

  function ParseFromIcon(id: string, displayLabel: string, duration: int, color: string, t: string): (r: Option<(TypeConfig, string)>)
    ensures r.Some? ==> |r.value.1| < |t|
  {
    match ParseStringField(IconKey, t)
    case None => None
    case Some((icon, t1)) =>
      match Expect("}", t1)
      case None => None
      case Some(t2) => Some((TypeConfig(id, displayLabel, duration, color, icon), t2))
  }

  /** One or more objects separated by commas, up to and including the closing bracket. */
  function ParseItems(t: string): (r: Option<(seq<TypeConfig>, string)>)
    ensures r.Some? ==> |r.value.1| < |t|
    decreases |t|
  {
    match ParseType(t)
    case None => None
    case Some((x, t1)) =>
      if t1 != [] && t1[0] == ',' then
        match ParseItems(t1[1..])
        case None => None
        case Some((xs, t2)) => Some(([x] + xs, t2))
      else if t1 != [] && t1[0] == ']' then Some(([x], t1[1..]))
      else None
  }

  function ParseList(t: string): Option<(seq<TypeConfig>, string)> {
    match Expect("[", t)
    case None => None
    case Some(t1) =>
      if t1 != [] && t1[0] == ']' then Some(([], t1[1..])) else ParseItems(t1)
  }

  /** `JSON.parse(text)` for a type list; `None` where it throws. */
  function Parse(text: string): Option<seq<TypeConfig>> {
    match ParseList(TrimStart(text))
    case Some((xs, rest)) => if TrimStart(rest) == [] then Some(xs) else None
    case None => None
  }

  lemma ParseStringFieldOf(key: string, s: string, rest: string)
    ensures ParseStringField(key, key + (EncodeString(s) + rest)) == Some((s, rest))
  {
    ExpectPrefix(key, EncodeString(s) + rest);
    DecodeEncodedString(s, rest);
  }

  lemma ParseTypeText(x: TypeConfig, rest: string)
    requires rest != []
    ensures ParseType(TypeText(x, rest)) == Some((x, rest))
  {
    var r1 := LabelKey + (EncodeString(x.displayLabel) + (DurationKey + (EncodeInt(x.duration)
      + (ColorKey + (EncodeString(x.color) + (IconKey + (EncodeString(x.icon) + ("}" + rest))))))));
    ParseStringFieldOf(IdKey, x.id, r1);
    ParseFromLabelText(x, rest);
  }

  /** The fields after the id, read back. */
  lemma ParseFromLabelText(x: TypeConfig, rest: string)
    ensures ParseFromLabel(x.id, LabelKey + (EncodeString(x.displayLabel) + (DurationKey + (EncodeInt(x.duration)
      + (ColorKey + (EncodeString(x.color) + (IconKey + (EncodeString(x.icon) + ("}" + rest))))))))) == Some((x, rest))
  {
    var r3 := EncodeInt(x.duration) + (ColorKey + (EncodeString(x.color) + (IconKey + (EncodeString(x.icon) + ("}" + rest)))));
    ParseStringFieldOf(LabelKey, x.displayLabel, DurationKey + r3);
    ParseFromDurationText(x, rest);
  }

  /** The fields after the label, read back. */
  lemma ParseFromDurationText(x: TypeConfig, rest: string)
    ensures ParseFromDuration(x.id, x.displayLabel, DurationKey + (EncodeInt(x.duration)
      + (ColorKey + (EncodeString(x.color) + (IconKey + (EncodeString(x.icon) + ("}" + rest))))))) == Some((x, rest))
  {
    var r4 := ColorKey + (EncodeString(x.color) + (IconKey + (EncodeString(x.icon) + ("}" + rest))));
    ExpectPrefix(DurationKey, EncodeInt(x.duration) + r4);
    DecodeEncodedInt(x.duration, r4);
    ParseFromColorText(x, rest);
  }

  /** The fields after the duration, read back. */
  lemma ParseFromColorText(x: TypeConfig, rest: string)
    ensures ParseFromColor(x.id, x.displayLabel, x.duration,
      ColorKey + (EncodeString(x.color) + (IconKey + (EncodeString(x.icon) + ("}" + rest))))) == Some((x, rest))
  {
    ParseStringFieldOf(ColorKey, x.color, IconKey + (EncodeString(x.icon) + ("}" + rest)));
    ParseStringFieldOf(IconKey, x.icon, "}" + rest);
    ExpectPrefix("}", rest);
  }

  /** After one object, a comma continues the list and a bracket closes it. */
  lemma ParseItemsAfterType(x: TypeConfig, k: string)
    requires k != [] && (k[0] == ',' || k[0] == ']')
    ensures ParseItems(TypeText(x, k)) ==
      if k[0] == ']' then Some(([x], k[1..]))
      else match ParseItems(k[1..])
        case None => None
        case Some((xs, r)) => Some(([x] + xs, r))
  {
    ParseTypeText(x, k);
  }

  lemma {:induction false} ParseItemsText(xs: seq<TypeConfig>, k: string)
    requires xs != [] && k != [] && k[0] == ']'
    ensures ParseItems(ItemsText(xs, k)) == Some((xs, k[1..]))
  {
    if |xs| == 1 {
      ParseItemsAfterType(xs[0], k);
      assert [xs[0]] == xs;
    } else {
      var c := "," + ItemsText(xs[1..], k);
      assert c[0] == ',' && c[1..] == ItemsText(xs[1..], k);
      ParseItemsAfterType(xs[0], c);
      ParseItemsText(xs[1..], k);
      SuffixCons(xs, 0);
    }
  }

  lemma ParseListText(xs: seq<TypeConfig>)
    ensures ParseList(Stringify(xs)) == Some((xs, []))
  {
    if xs == [] {
      ExpectPrefix("[", "]");
      assert "[" + "]" == Stringify(xs);
      assert "]"[1..] == [];
    } else {
      var body := ItemsText(xs, "]");
      ParseItemsText(xs, "]");
      ExpectPrefix("[", body);
      assert body == TypeText(xs[0], if |xs| == 1 then "]" else "," + ItemsText(xs[1..], "]"));
      assert body[0] == IdKey[0] == '{';
    }
  }

  /** Parsing what `Stringify` wrote gives the list back. */
  lemma ParseStringified(xs: seq<TypeConfig>)
    ensures Parse(Stringify(xs)) == Some(xs)
  {
    var text := Stringify(xs);
    assert TrimStart(text) == text;
    ParseListText(xs);
    assert TrimStart([]) == [];
  }

  // ---------------------------------------------------------------------
  // The service

  /** `getAppointmentTypes` as a function of the stored value: a non-empty
      stored string that parses is returned; anything else gives the defaults. */
  function TypesFromStored(saved: Option<string>): (types: seq<TypeConfig>)
    ensures saved.None? || saved == Some("") ==> types == DefaultTypes
    ensures saved.Some? && saved.value != "" && Parse(saved.value).None? ==> types == DefaultTypes
  {
    if saved.Some? && saved.value != "" then
      match Parse(saved.value)
      case Some(xs) => xs
      case None => DefaultTypes
    else DefaultTypes
  }

  /** Saving a list and then reading it gives the same list. */
  lemma TypesFromSaved(xs: seq<TypeConfig>)
    ensures TypesFromStored(Some(Stringify(xs))) == xs
  {
    ParseStringified(xs);
  }

  /** `configService.getAppointmentTypes()`. */
  method GetAppointmentTypes(store: LocalStorage) returns (types: seq<TypeConfig>)
    ensures types == TypesFromStored(store.GetItem(StorageKey))
  {
    var saved := store.GetItem(StorageKey);
    if saved.Some? && saved.value != "" {
      var parsed := Parse(saved.value);
      if parsed.Some? {
        return parsed.value;
      }
      return DefaultTypes;
    }
    return DefaultTypes;
  }

  /** `configService.saveAppointmentTypes(types)`: writes only its own key. */
  method SaveAppointmentTypes(store: LocalStorage, types: seq<TypeConfig>)
    modifies store
    ensures store.items == old(store.items)[StorageKey := Stringify(types)]
    ensures TypesFromStored(store.GetItem(StorageKey)) == types
  {
    store.SetItem(StorageKey, Stringify(types));
    TypesFromSaved(types);
  }
}
