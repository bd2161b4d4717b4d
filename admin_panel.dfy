/**
  The administration page. `fetchRooms` counts how often each room id comes
  back, raises a warning for suspicious ids, and gives every room a key: its
  number when that is positive and unique, a temporary text key otherwise. The
  page state (`rooms`, `selectedRoomId`, `formData`, the error text and the
  warning flag) is a `Panel` whose handlers update it; the server's answers
  are parameters.
*/
module AdminPanel {
  import opened Optional
  import opened Text
  import opened JsValues
  import opened Sequences
  import Availability

  /** A room as the page receives it from `GET /api/habitaciones`. */
  datatype ApiRoom = ApiRoom(id: Json, tipo: Option<string>, precio: Json, estado: Option<string>, descripcion: Option<string>)

  /** The `id_habitacion` the page gives a room: its number, or a temporary text key. */
  datatype RoomKey = NumKey(n: int) | TempKey(s: string)

  /** A room of the page's list. `precio` is a number, NaN after a status change with a bad price. */
  datatype PanelRoom = PanelRoom(
    key: RoomKey, originalId: JsNumber, tipo: string, precio: JsNumber, estado: string, descripcion: string,
    hasIdIssue: bool)

  /** The edit form; `precio` is the text of its input. */
  datatype Form = Form(tipo: string, precio: string, estado: string, descripcion: string)

  const EmptyForm := Form("", "", Availability.Disponible, "")
  const TempInfix := "-temp-"

  // ---------------------------------------------------------------------------
  // Counting ids
  // ---------------------------------------------------------------------------

  /** `String(Number(room.id_habitacion))`: the property `idCounts` files a room under. */
  function IdKey(r: ApiRoom): string {
    NumberToString(ToNumber(r.id))
  }

  function IdKeys(data: seq<ApiRoom>): (ks: seq<string>)
    ensures |ks| == |data|
    ensures forall i :: 0 <= i < |data| ==> ks[i] == IdKey(data[i])
  {
    seq(|data|, i requires 0 <= i < |data| => IdKey(data[i]))
  }

  /** How many times `k` occurs in `keys`. */
  function Occurrences(keys: seq<string>, k: string): nat {
    if keys == [] then 0
    else Occurrences(keys[..|keys| - 1], k) + (if keys[|keys| - 1] == k then 1 else 0)
  }

  /** The dictionary `idCounts` after the `forEach`. */
  function IdCounts(keys: seq<string>): (m: map<string, nat>)
    ensures forall k :: k in m <==> k in keys
  {
    map k | k in keys :: Occurrences(keys, k)
  }

  /** The count is the multiplicity of the key among the fetched rooms. */
  lemma {:induction false} OccurrencesIsMultiplicity(keys: seq<string>, k: string)
    ensures Occurrences(keys, k) == multiset(keys)[k]
  {
    if keys != [] {
      var init := keys[..|keys| - 1];
      OccurrencesIsMultiplicity(init, k);
      assert keys == init + [keys[|keys| - 1]];
    }
  }

  lemma {:induction false} AbsentOccursNever(keys: seq<string>, k: string)
    requires k !in keys
    ensures Occurrences(keys, k) == 0
  {
    if keys != [] {
      var init := keys[..|keys| - 1];
      assert forall x :: x in init ==> x in keys;
      AbsentOccursNever(init, k);
    }
  }

  lemma {:induction false} PresentOccurs(keys: seq<string>, i: nat)
    requires i < |keys|
    ensures Occurrences(keys, keys[i]) >= 1
  {
    var init := keys[..|keys| - 1];
    if i < |keys| - 1 {
      assert init[i] == keys[i];
      PresentOccurs(init, i);
    }
  }

  /** A key at two positions is counted at least twice. */
  lemma {:induction false} TwiceOccursTwice(keys: seq<string>, i: nat, j: nat)
    requires i < j < |keys| && keys[i] == keys[j]
    ensures Occurrences(keys, keys[i]) >= 2
  {
    var init := keys[..|keys| - 1];
    assert init[i] == keys[i];
    if j == |keys| - 1 {
      PresentOccurs(init, i);
    } else {
      assert init[j] == keys[j];
      TwiceOccursTwice(init, i, j);
    }
  }

  /** A key found nowhere else is counted once. */
  lemma {:induction false} LoneOccursOnce(keys: seq<string>, i: nat)
    requires i < |keys|
    requires forall j :: 0 <= j < |keys| && j != i ==> keys[j] != keys[i]
    ensures Occurrences(keys, keys[i]) == 1
  {
    var init := keys[..|keys| - 1];
    if i == |keys| - 1 {
      assert keys[i] !in init by {
        forall j | 0 <= j < |init| ensures init[j] != keys[i] {
          assert init[j] == keys[j];
        }
      }
      AbsentOccursNever(init, keys[i]);
    } else {
      assert init[i] == keys[i];
      forall j | 0 <= j < |init| && j != i ensures init[j] != init[i] {
        assert init[j] == keys[j];
      }
      LoneOccursOnce(init, i);
    }
  }

  /** A room's count is 1 exactly when no other room has its key. */
  lemma CountOneIffUnique(keys: seq<string>, i: nat)
    requires i < |keys|
    ensures Occurrences(keys, keys[i]) == 1 <==> forall j :: 0 <= j < |keys| && j != i ==> keys[j] != keys[i]
  {
    if forall j :: 0 <= j < |keys| && j != i ==> keys[j] != keys[i] {
      LoneOccursOnce(keys, i);
    } else {
      var j :| 0 <= j < |keys| && j != i && keys[j] == keys[i];
      if i < j { TwiceOccursTwice(keys, i, j); } else { TwiceOccursTwice(keys, j, i); }
    }
  }

  lemma IdCountsSnoc(keys: seq<string>, x: string)
    ensures IdCounts(keys + [x]) == IdCounts(keys)[x := if x in keys then Occurrences(keys, x) + 1 else 1]
  {
    var s := keys + [x];
    assert s[..|s| - 1] == keys;
    if x !in keys {
      AbsentOccursNever(keys, x);
    }
    var m := IdCounts(keys)[x := if x in keys then Occurrences(keys, x) + 1 else 1];
    forall k | k in s ensures k in m && IdCounts(s)[k] == m[k] {
      if k != x {
        assert k in keys;
      }
    }
  }

  /** The `forEach` that fills `idCounts`, over the rooms' keys. */
  method CountKeys(keys: seq<string>) returns (counts: map<string, nat>)
    ensures counts == IdCounts(keys)
  {
    counts := map[];
    var i := 0;
    while i < |keys|
      invariant 0 <= i <= |keys|
      invariant counts == IdCounts(keys[..i])
    {
      var key := keys[i];
      assert keys[..i + 1] == keys[..i] + [key];
      IdCountsSnoc(keys[..i], key);
      if key in counts {
        counts := counts[key := counts[key] + 1];
      } else {
        counts := counts[key := 1];
      }
      i := i + 1;
    }
    assert keys[..i] == keys;
  }

  // ---------------------------------------------------------------------------
  // The duplicate warning
  // ---------------------------------------------------------------------------

  /** `count > 1 || id === '0' || isNaN(parseInt(id))`. */
  predicate ProblemEntry(id: string, count: nat) {
    count > 1 || id == "0" || ParseInt(id).None?
  }

  /** `duplicateIds.length > 0`. */
  predicate HasProblemIds(counts: map<string, nat>) {
    exists id :: id in counts && ProblemEntry(id, counts[id])
  }

  /** A fetched room whose number is 0 or NaN, or is shared with another room. */
  predicate Suspicious(data: seq<ApiRoom>, i: nat)
    requires i < |data|
  {
    var x := ToNumber(data[i].id);
    x == NaN || x == Int(0) || exists j :: 0 <= j < |data| && j != i && ToNumber(data[j].id) == x
  }

  lemma ZeroKey(x: JsNumber)
    ensures NumberToString(x) == "0" <==> x == Int(0)
  {
    assert NumberToString(Int(0)) == "0";
    if NumberToString(x) == "0" {
      NumberToStringInjective(x, Int(0));
    }
  }

  /** The warning is raised exactly when some fetched room is suspicious. */
  lemma WarningIffSuspicious(data: seq<ApiRoom>)
    ensures HasProblemIds(IdCounts(IdKeys(data))) <==> exists i :: 0 <= i < |data| && Suspicious(data, i)
  {
    var keys := IdKeys(data);
    var counts := IdCounts(keys);
    if HasProblemIds(counts) {
      var id :| id in counts && ProblemEntry(id, counts[id]);
      var i :| 0 <= i < |keys| && keys[i] == id;
      var x := ToNumber(data[i].id);
      ZeroKey(x);
      ParseIntOfNumberString(x);
      if counts[id] > 1 {
        CountOneIffUnique(keys, i);
        var j :| 0 <= j < |keys| && j != i && keys[j] == keys[i];
        NumberToStringInjective(ToNumber(data[j].id), x);
      }
      assert Suspicious(data, i);
    }
    if exists i :: 0 <= i < |data| && Suspicious(data, i) {
      var i :| 0 <= i < |data| && Suspicious(data, i);
      var x := ToNumber(data[i].id);
      var id := keys[i];
      assert id in counts;
      ZeroKey(x);
      ParseIntOfNumberString(x);
      if x != NaN && x != Int(0) {
        var j :| 0 <= j < |data| && j != i && ToNumber(data[j].id) == x;
        assert keys[j] == keys[i];
        CountOneIffUnique(keys, i);
        PresentOccurs(keys, i);
      }
      assert ProblemEntry(id, counts[id]);
    }
  }

  // ---------------------------------------------------------------------------
  // Normalisation
  // ---------------------------------------------------------------------------

  /** `roomId > 0 && !isNaN(roomId) && idCounts[roomId] === 1`. */
  predicate HasValidId(x: JsNumber, counts: map<string, nat>) {
    x.Int? && x.n > 0 && NumberToString(x) in counts && counts[NumberToString(x)] == 1
  }

  /** `` roomId + `-temp-${index}` ``. */
  function TempKeyFor(x: JsNumber, index: nat): string {
    NumberToString(x) + TempInfix + NatToString(index)
  }

  /** `String(room.id_habitacion)`, also the text of the React key after `room-`. */
  function KeyString(k: RoomKey): string {
    match k
    case NumKey(n) => IntToString(n)
    case TempKey(s) => s
  }

  /** `room.estado?.toLowerCase() || 'disponible'`. */
  function StatusOf(estado: Option<string>): (s: string)
    ensures IsLowerCase(s) && s != ""
    ensures Present(estado) ==> SameIgnoringCaseText(s, estado.value)
  {
    if Present(estado) then Lower(estado.value) else Availability.Disponible
  }

  predicate SameIgnoringCaseText(a: string, b: string) {
    |a| == |b| && forall k :: 0 <= k < |a| ==> SameIgnoringCase(a[k], b[k])
  }

  /** One step of the normalising `.map`, for the room at `index`. */
  function NormaliseRoom(r: ApiRoom, index: nat, counts: map<string, nat>): (p: PanelRoom)
    ensures p.originalId == ToNumber(r.id)
    ensures p.hasIdIssue <==> !HasValidId(ToNumber(r.id), counts)
    ensures !p.hasIdIssue ==> p.key == NumKey(ToNumber(r.id).n)
    ensures p.hasIdIssue ==> p.key == TempKey(TempKeyFor(ToNumber(r.id), index))
    ensures p.precio.Int?
    ensures Present(r.tipo) ==> p.tipo == r.tipo.value
    ensures !Present(r.tipo) ==> p.tipo == Availability.SinTipo
    ensures ToNumber(r.precio).Int? ==> p.precio == ToNumber(r.precio)
    ensures ToNumber(r.precio).NaN? ==> p.precio == Int(0)
    ensures p.estado == StatusOf(r.estado)
    ensures Present(r.descripcion) ==> p.descripcion == r.descripcion.value
    ensures !Present(r.descripcion) ==> p.descripcion == ""
  {
    var x := ToNumber(r.id);
    var valid := HasValidId(x, counts);
    PanelRoom(
      KeyFor(x, index, valid),
      x,
      OrDefault(r.tipo, Availability.SinTipo),
      Int(match ToNumber(r.precio) case NaN => 0 case Int(n) => n),
      StatusOf(r.estado),
      OrDefault(r.descripcion, ""),
      !valid)
  }

  /** The normalising `.map` over the response, keeping its order. */
  function NormaliseRooms(data: seq<ApiRoom>, counts: map<string, nat>): (ps: seq<PanelRoom>)
    ensures |ps| == |data|
    ensures forall i :: 0 <= i < |data| ==> ps[i] == NormaliseRoom(data[i], i, counts)
  {
    seq(|data|, i requires 0 <= i < |data| => NormaliseRoom(data[i], i, counts))
  }

  /** The rooms the page shows after fetching `data`. */
  function Normalised(data: seq<ApiRoom>): seq<PanelRoom> {
    NormaliseRooms(data, IdCounts(IdKeys(data)))
  }

  /** A room keeps its number as key exactly when that number is positive and no other room has it. */
  lemma KeepsIdIffPositiveAndUnique(data: seq<ApiRoom>, i: nat)
    requires i < |data|
    ensures !Normalised(data)[i].hasIdIssue <==>
      ToNumber(data[i].id).Int? && ToNumber(data[i].id).n > 0
      && forall j :: 0 <= j < |data| && j != i ==> ToNumber(data[j].id) != ToNumber(data[i].id)
    ensures !Normalised(data)[i].hasIdIssue ==> Normalised(data)[i].key == NumKey(ToNumber(data[i].id).n)
    ensures Normalised(data)[i].originalId == ToNumber(data[i].id)
  {
    var keys := IdKeys(data);
    CountOneIffUnique(keys, i);
    forall j | 0 <= j < |data| && j != i
      ensures keys[j] == keys[i] <==> ToNumber(data[j].id) == ToNumber(data[i].id)
    {
      if keys[j] == keys[i] { NumberToStringInjective(ToNumber(data[j].id), ToNumber(data[i].id)); }
    }
  }

  /** The warning implies that some room is marked as having an id issue. */
  lemma WarningImpliesIssue(data: seq<ApiRoom>)
    requires HasProblemIds(IdCounts(IdKeys(data)))
    ensures exists i :: 0 <= i < |data| && Normalised(data)[i].hasIdIssue
  {
    WarningIffSuspicious(data);
    var i :| 0 <= i < |data| && Suspicious(data, i);
    KeepsIdIffPositiveAndUnique(data, i);
  }

  /** A lone negative id is marked as an issue and yet raises no warning. */
  lemma NegativeIdIsNotWarned()
    ensures var data := [ApiRoom(Num(-5), Some("Doble"), Num(100), Some(Availability.Disponible), None)];
      Normalised(data)[0].hasIdIssue && !HasProblemIds(IdCounts(IdKeys(data)))
  {
    var data := [ApiRoom(Num(-5), Some("Doble"), Num(100), Some(Availability.Disponible), None)];
    KeepsIdIffPositiveAndUnique(data, 0);
    WarningIffSuspicious(data);
  }

  /** The text of a number (digits, `-` or `NaN`) holds neither `t` nor `p`. */
  lemma NumberTextHasNoTOrP(x: JsNumber, k: nat)
    requires k < |NumberToString(x)|
    ensures NumberToString(x)[k] != 't' && NumberToString(x)[k] != 'p'
  {
    NumberStringLetters(x);
  }

  /** In a temporary key, the first `p` sits right after the number's text and `-tem`. */
  lemma FirstP(x: JsNumber, i: nat)
    ensures TempKeyFor(x, i)[|NumberToString(x)| + 4] == 'p'
    ensures forall k :: 0 <= k < |NumberToString(x)| + 4 ==> TempKeyFor(x, i)[k] != 'p'
  {
    var a := NumberToString(x);
    forall k | 0 <= k < |a| + 4 ensures TempKeyFor(x, i)[k] != 'p' {
      if k < |a| { NumberTextHasNoTOrP(x, k); } else { assert TempKeyFor(x, i)[k] == TempInfix[k - |a|]; }
    }
  }

  /** Temporary keys are one-to-one in the number and the index. */
  lemma TempKeyInjective(x: JsNumber, i: nat, y: JsNumber, j: nat)
    requires TempKeyFor(x, i) == TempKeyFor(y, j)
    ensures x == y && i == j
  {
    var a, b := NumberToString(x), NumberToString(y);
    var s := TempKeyFor(x, i);
    FirstP(x, i);
    FirstP(y, j);
    assert |a| == |b|;
    assert a == s[..|a|] == b;
    NumberToStringInjective(x, y);
    assert NatToString(i) == s[|a| + 6..] == NatToString(j);
    NatToStringInjective(i, j);
  }

  /** Every key the page shows is different, also as text. */
  predicate DistinctKeys(rooms: seq<PanelRoom>) {
    forall i, j :: 0 <= i < j < |rooms| ==> KeyString(rooms[i].key) != KeyString(rooms[j].key)
  }

  predicate KeyTextsDiffer(a: PanelRoom, b: PanelRoom) {
    KeyString(a.key) != KeyString(b.key)
  }

  /** The key the normalising `.map` gives the room numbered `x` at `index`. */
  function KeyFor(x: JsNumber, index: nat, valid: bool): RoomKey
    requires valid ==> x.Int?
  {
    if valid then NumKey(x.n) else TempKey(TempKeyFor(x, index))
  }

  /** Keys at two positions differ unless both are numeric keys of the same number. */
  lemma KeyForDistinct(x: JsNumber, i: nat, vi: bool, y: JsNumber, j: nat, vj: bool)
    requires i != j && (vi ==> x.Int?) && (vj ==> y.Int?)
    requires vi && vj ==> x != y
    ensures KeyString(KeyFor(x, i, vi)) != KeyString(KeyFor(y, j, vj))
  {
    if vi && vj {
      if IntToString(x.n) == IntToString(y.n) { IntToStringInjective(x.n, y.n); }
    } else if !vi && !vj {
      if TempKeyFor(x, i) == TempKeyFor(y, j) { TempKeyInjective(x, i, y, j); }
    } else if vi {
      NumKeyHasNoT(x, TempKeyFor(y, j), y, j);
    } else {
      NumKeyHasNoT(y, TempKeyFor(x, i), x, i);
    }
  }

  /** Two rooms that both keep their number as key have different numbers. */
  lemma ValidIdsDiffer(data: seq<ApiRoom>, i: nat, j: nat)
    requires i < j < |data|
    requires HasValidId(ToNumber(data[i].id), IdCounts(IdKeys(data)))
    requires HasValidId(ToNumber(data[j].id), IdCounts(IdKeys(data)))
    ensures ToNumber(data[i].id) != ToNumber(data[j].id)
  {
    var keys := IdKeys(data);
    if ToNumber(data[i].id) == ToNumber(data[j].id) {
      assert keys[i] == keys[j];
      TwiceOccursTwice(keys, i, j);
    }
  }

  /** Two rooms of a freshly fetched list have different keys, also as text. */
  lemma NormalisedPairDistinct(data: seq<ApiRoom>, i: nat, j: nat)
    requires i < j < |data|
    ensures KeyString(Normalised(data)[i].key) != KeyString(Normalised(data)[j].key)
  {
    var counts := IdCounts(IdKeys(data));
    var x, y := ToNumber(data[i].id), ToNumber(data[j].id);
    var vi, vj := HasValidId(x, counts), HasValidId(y, counts);
    assert Normalised(data)[i].key == KeyFor(x, i, vi);
    assert Normalised(data)[j].key == KeyFor(y, j, vj);
    if vi && vj {
      ValidIdsDiffer(data, i, j);
    }
    KeyForDistinct(x, i, vi, y, j, vj);
  }

  /** The keys of a freshly fetched list are distinct, as the React `key` requires. */
  lemma NormalisedKeysDistinct(data: seq<ApiRoom>)
    ensures DistinctKeys(Normalised(data))
  {
    forall i, j | 0 <= i < j < |data|
      ensures KeyString(Normalised(data)[i].key) != KeyString(Normalised(data)[j].key)
    {
      NormalisedPairDistinct(data, i, j);
    }
  }

  lemma NumKeyHasNoT(x: JsNumber, t: string, y: JsNumber, j: nat)
    requires x.Int? && t == TempKeyFor(y, j)
    ensures IntToString(x.n) != t
  {
    var b := NumberToString(y);
    assert t[|b| + 1] == 't';
    if |b| + 1 < |IntToString(x.n)| {
      NumberTextHasNoTOrP(x, |b| + 1);
    }
  }

  /** The id the page puts in a request URL: `room.original_id || room.id_habitacion`. */
  function ApiIdOf(p: PanelRoom): string {
    if p.originalId.Int? && p.originalId.n != 0 then NumberToString(p.originalId) else KeyString(p.key)
  }

  /** Whatever key a fetched room got, the server reads the request URL back as its original number. */
  lemma ApiIdTargetsOriginalId(data: seq<ApiRoom>, i: nat)
    requires i < |data|
    ensures ParseInt(ApiIdOf(Normalised(data)[i])) ==
      if ToNumber(data[i].id).Int? then Some(ToNumber(data[i].id).n) else None
  {
    var counts := IdCounts(IdKeys(data));
    var x := ToNumber(data[i].id);
    assert Normalised(data)[i] == NormaliseRoom(data[i], i, counts);
    ParseIntOfNumberString(x);
    if !(x.Int? && x.n != 0) {
      assert !HasValidId(x, counts);
      TempKeyReadsBack(x, i);
    }
  }

  /** `parseInt` reads a temporary key back as the number it was made from. */
  lemma TempKeyReadsBack(x: JsNumber, index: nat)
    ensures ParseInt(TempKeyFor(x, index)) == if x.Int? then Some(x.n) else None
  {
    var rest := TempInfix + NatToString(index);
    assert TempKeyFor(x, index) == NumberToString(x) + rest;
    if x.Int? {
      assert rest[0] == '-';
      ParseIntOfRendered(x.n, rest);
    } else {
      assert TempKeyFor(x, index)[0] == 'N';
      ParseIntNoDigits(TempKeyFor(x, index));
    }
  }

  // ---------------------------------------------------------------------------
  // Form input
  // ---------------------------------------------------------------------------

  predicate PriceChar(c: char) {
    IsDigit(c) || c == '.'
  }

  /** `value.replace(/[^0-9.]/g, '')`. */
  function KeepPriceChars(value: string): (r: string)
    ensures |r| <= |value|
    ensures forall c :: c in r <==> c in value && PriceChar(c)
  {
    Filter(PriceChar, value)
  }

  /** Cleaning the price text twice is cleaning it once, and clean text is left as it is. */
  lemma {:induction false} KeepPriceCharsIdentity(value: string)
    requires forall k :: 0 <= k < |value| ==> PriceChar(value[k])
    ensures KeepPriceChars(value) == value
  {
    if value != [] {
      KeepPriceCharsIdentity(value[1..]);
      assert value == [value[0]] + value[1..];
    }
  }

  lemma KeepPriceCharsIdempotent(value: string)
    ensures KeepPriceChars(KeepPriceChars(value)) == KeepPriceChars(value)
  {
    var r := KeepPriceChars(value);
    assert forall k :: 0 <= k < |r| ==> r[k] in r;
    KeepPriceCharsIdentity(r);
  }

  /** The inputs of the form that have an `onChange`. */
  datatype FieldName = TipoField | PrecioField | DescripcionField

  /** `handleInputChange`: the price keeps only digits and dots, the other fields take the value as typed. */
  function WithInput(form: Form, name: FieldName, value: string): (f: Form)
    ensures name == PrecioField ==> f == form.(precio := KeepPriceChars(value))
    ensures name == TipoField ==> f == form.(tipo := value)
    ensures name == DescripcionField ==> f == form.(descripcion := value)
  {
    match name
    case TipoField => form.(tipo := value)
    case PrecioField => form.(precio := KeepPriceChars(value))
    case DescripcionField => form.(descripcion := value)
  }

  // ---------------------------------------------------------------------------
  // The page state
  // ---------------------------------------------------------------------------

  /** What a fetch of `GET /api/habitaciones` produced. */
  datatype FetchOutcome = Fetched(data: seq<ApiRoom>) | NotAList | FetchFailed(message: string)

  /** Whether a write request succeeded; a failure may carry the server's `error`. */
  datatype RequestOutcome = Done | Rejected(serverError: Option<string>)

  /** The JSON body of a write request. */
  datatype Payload = Payload(tipo: string, precio: JsNumber, estado: string, descripcion: string)

  /** A request the page sends. */
  datatype Request = Put(apiId: string, payload: Payload) | Post(payload: Payload) | Delete(apiId: string)

  const LoadErrorPrefix := "Error cargando habitaciones: "
  const BadFormat := "Formato de respuesta inválido"
  const ConnectionError := "Error de conexión"
  const InvalidPrice := "Ingrese un precio válido mayor que 0"

  /**
    `isNaN(precio) || precio <= 0` for `precio = parseFloat(text)`, decided on
    the exact number read, fraction included.
  */
  predicate RefusedPrice(text: string) {
    FloatValue(text).None? || FloatValue(text).value <= 0.0
  }

  /** A price text is sent exactly when `parseFloat` reads a number above zero from it; `.5` is sent. */
  lemma RefusedPriceIff(text: string)
    ensures !RefusedPrice(text) <==> exists v: real :: FloatValue(text) == Some(v) && v > 0.0
    ensures !RefusedPrice(text) ==> ParseFloat(text).Int? && ParseFloat(text).n >= 0
  {
    ParseFloatTruncates(text);
  }

  /** `.5` is sent although its integer part is 0; `abc` is refused. */
  lemma RefusedPriceExamples()
    ensures !RefusedPrice(".5") && ParseFloat(".5") == Int(0)
    ensures RefusedPrice("abc")
  {
    HalfPrice();
    ParseFloatOfWord("abc");
  }
  const DeleteError := "Error eliminando habitación. Intente nuevamente o contacte soporte."

  /** `` `Error: ${err.response?.data?.error || fallback}` ``. */
  function RequestError(outcome: RequestOutcome, fallback: string): string
    requires outcome.Rejected?
  {
    "Error: " + OrDefault(outcome.serverError, fallback)
  }

  /** `{ ...room, ...payload }`: the payload's fields replace the room's, the key stays. */
  function WithPayload(room: PanelRoom, p: Payload): (r: PanelRoom)
    ensures r.key == room.key && r.originalId == room.originalId && r.hasIdIssue == room.hasIdIssue
    ensures r.tipo == p.tipo && r.precio == p.precio && r.estado == p.estado && r.descripcion == p.descripcion
  {
    room.(tipo := p.tipo, precio := p.precio, estado := p.estado, descripcion := p.descripcion)
  }

  /** The `prev.map` of a status change: only rooms with the selected key change. */
  function UpdateSelected(rooms: seq<PanelRoom>, key: RoomKey, p: Payload): (r: seq<PanelRoom>)
    ensures |r| == |rooms|
    ensures forall i :: 0 <= i < |rooms| ==> r[i] == if rooms[i].key == key then WithPayload(rooms[i], p) else rooms[i]
  {
    seq(|rooms|, i requires 0 <= i < |rooms| => if rooms[i].key == key then WithPayload(rooms[i], p) else rooms[i])
  }

  /** With distinct keys, a status change rewrites exactly one room and keeps every key. */
  lemma UpdateSelectedChangesOne(rooms: seq<PanelRoom>, k: nat, p: Payload)
    requires DistinctKeys(rooms) && k < |rooms|
    ensures UpdateSelected(rooms, rooms[k].key, p)[k] == WithPayload(rooms[k], p)
    ensures forall i :: 0 <= i < |rooms| && i != k ==> UpdateSelected(rooms, rooms[k].key, p)[i] == rooms[i]
    ensures DistinctKeys(UpdateSelected(rooms, rooms[k].key, p))
  {
    forall i | 0 <= i < |rooms| && i != k ensures rooms[i].key != rooms[k].key {
      if i < k { assert KeyString(rooms[i].key) != KeyString(rooms[k].key); }
      else { assert KeyString(rooms[k].key) != KeyString(rooms[i].key); }
    }
  }

  /** A status change keeps the keys distinct and the selected key present. */
  lemma UpdateKeepsSelection(rooms: seq<PanelRoom>, key: RoomKey, p: Payload)
    requires DistinctKeys(rooms) && exists i :: 0 <= i < |rooms| && rooms[i].key == key
    ensures DistinctKeys(UpdateSelected(rooms, key, p))
    ensures exists i :: 0 <= i < |rooms| && UpdateSelected(rooms, key, p)[i].key == key
  {
    var k :| 0 <= k < |rooms| && rooms[k].key == key;
    UpdateSelectedChangesOne(rooms, k, p);
    assert UpdateSelected(rooms, key, p)[k].key == key;
  }

  function NotKey(key: RoomKey): PanelRoom -> bool {
    (r: PanelRoom) => r.key != key
  }

  /** With distinct keys, no room other than `room` shares its key. */
  lemma OthersHaveOtherKeys(before: seq<PanelRoom>, room: PanelRoom, after: seq<PanelRoom>)
    requires DistinctKeys(before + [room] + after)
    ensures forall x :: x in before + after ==> NotKey(room.key)(x)
  {
    var all := before + [room] + after;
    assert all[|before|] == room;
    forall x | x in before + after ensures x.key != room.key {
      var i :| 0 <= i < |before + after| && (before + after)[i] == x;
      if i < |before| {
        assert all[i] == x;
      } else {
        assert all[i + 1] == x;
      }
    }
  }

  /** Deleting the selected room keeps every other room, in order. */
  lemma DeleteKeepsOthers(before: seq<PanelRoom>, room: PanelRoom, after: seq<PanelRoom>)
    requires DistinctKeys(before + [room] + after)
    ensures Filter(NotKey(room.key), before + [room] + after) == before + after
  {
    var p := NotKey(room.key);
    OthersHaveOtherKeys(before, room, after);
    assert forall x :: x in before ==> p(x) by {
      forall x | x in before ensures p(x) { assert x in before + after; }
    }
    assert forall x :: x in after ==> p(x) by {
      forall x | x in after ensures p(x) { assert x in before + after; }
    }
    FilterRemovesOne(p, before, room, after);
  }

  /** Deleting rooms keeps the keys distinct. */
  lemma DeleteKeepsDistinctKeys(rooms: seq<PanelRoom>, key: RoomKey)
    requires DistinctKeys(rooms)
    ensures DistinctKeys(Filter(NotKey(key), rooms))
  {
    assert Pairwise(KeyTextsDiffer, rooms);
    FilterKeepsPairwise(KeyTextsDiffer, NotKey(key), rooms);
    var r := Filter(NotKey(key), rooms);
    assert Pairwise(KeyTextsDiffer, r);
  }

  /** The first room with a key: `rooms.find(room => room.id_habitacion === key)`. */
  function FindRoom(rooms: seq<PanelRoom>, key: RoomKey): (r: Option<PanelRoom>)
    ensures r.Some? ==> r.value in rooms && r.value.key == key
    ensures r.None? <==> forall i :: 0 <= i < |rooms| ==> rooms[i].key != key
  {
    if rooms == [] then None
    else if rooms[0].key == key then Some(rooms[0])
    else
      var r := FindRoom(rooms[1..], key);
      assert forall i :: 1 <= i < |rooms| ==> rooms[i] == rooms[1..][i - 1];
      r
  }

  class Panel {
    var rooms: seq<PanelRoom>
    var selected: Option<RoomKey>
    var form: Form
    var loading: bool
    var error: string
    var duplicateWarning: bool

    /** Keys are distinct and a selection names a listed room. */
    ghost predicate Valid()
      reads this
    {
      DistinctKeys(rooms) && (selected.Some? ==> exists i :: 0 <= i < |rooms| && rooms[i].key == selected.value)
    }

    /** The initial state of the component. */
    constructor ()
      ensures Valid()
      ensures rooms == [] && selected == None && form == EmptyForm
      ensures loading && error == "" && !duplicateWarning
    {
      rooms := [];
      selected := None;
      form := EmptyForm;
      loading := true;
      error := "";
      duplicateWarning := false;
    }

    /** `getSelectedRoom`. */
    function SelectedRoom(): (r: Option<PanelRoom>)
      reads this
      ensures selected.None? ==> r.None?
      ensures r.Some? ==> r.value in rooms && Some(r.value.key) == selected
    {
      if selected.None? then None else FindRoom(rooms, selected.value)
    }

    /**
      `fetchRooms`: on a list, the counts, the warning and the normalised rooms;
      otherwise the error text, the list left as it was.
    */
    method FetchRooms(outcome: FetchOutcome)
      modifies this
      ensures selected == old(selected) && form == old(form) && !loading
      ensures outcome.Fetched? ==> rooms == Normalised(outcome.data) && DistinctKeys(rooms) && error == ""
      ensures outcome.Fetched? ==> (duplicateWarning <==> HasProblemIds(IdCounts(IdKeys(outcome.data))))
      ensures outcome.NotAList? ==> rooms == old(rooms) && error == LoadErrorPrefix + BadFormat && !duplicateWarning
      ensures outcome.FetchFailed? ==>
        rooms == old(rooms) && !duplicateWarning
        && error == LoadErrorPrefix + (if outcome.message != "" then outcome.message else ConnectionError)
    {
      loading := true;
      error := "";
      duplicateWarning := false;
      match outcome {
        case Fetched(data) =>
          var counts := CountKeys(IdKeys(data));
          var warn := HasProblemIds(counts);
          var list := NormaliseRooms(data, counts);
          NormalisedKeysDistinct(data);
          rooms := list;
          duplicateWarning := warn;
        case NotAList =>
          error := LoadErrorPrefix + BadFormat;
        case FetchFailed(message) =>
          error := LoadErrorPrefix + (if message != "" then message else ConnectionError);
      }
      loading := false;
    }

    /** The `useEffect` of the first render: a fetch with nothing selected. */
    method Mount(outcome: FetchOutcome)
      requires Valid() && selected.None?
      modifies this
      ensures Valid()
      ensures selected == None && form == old(form) && !loading
      ensures outcome.Fetched? ==> rooms == Normalised(outcome.data) && error == ""
      ensures outcome.Fetched? ==> (duplicateWarning <==> HasProblemIds(IdCounts(IdKeys(outcome.data))))
      ensures outcome.NotAList? ==> rooms == old(rooms) && error == LoadErrorPrefix + BadFormat && !duplicateWarning
      ensures outcome.FetchFailed? ==>
        rooms == old(rooms) && !duplicateWarning
        && error == LoadErrorPrefix + (if outcome.message != "" then outcome.message else ConnectionError)
    {
      FetchRooms(outcome);
    }

    /** `resetForm`. */
    method ResetForm()
      modifies this
      ensures selected == None && form == EmptyForm
      ensures rooms == old(rooms) && loading == old(loading) && error == old(error)
      ensures duplicateWarning == old(duplicateWarning)
    {
      selected := None;
      form := EmptyForm;
    }

    /**
      `handleRoomSelect`: clicking the selected room (compared as text) clears the
      selection and the form; clicking another selects it and copies its fields.
    */
    method SelectRoom(room: PanelRoom)
      requires Valid() && room in rooms
      modifies this
      ensures Valid()
      ensures rooms == old(rooms) && loading == old(loading) && error == old(error)
      ensures duplicateWarning == old(duplicateWarning)
      ensures old(selected).Some? && KeyString(old(selected).value) == KeyString(room.key) ==>
        selected == None && form == EmptyForm
      ensures !(old(selected).Some? && KeyString(old(selected).value) == KeyString(room.key)) ==>
        selected == Some(room.key)
        && form == Form(room.tipo, NumberToString(room.precio), room.estado, room.descripcion)
    {
      if selected.Some? && KeyString(selected.value) == KeyString(room.key) {
        ResetForm();
      } else {
        selected := Some(room.key);
        form := Form(room.tipo, NumberToString(room.precio), room.estado, room.descripcion);
      }
    }

    /** `handleInputChange`. */
    method ChangeInput(name: FieldName, value: string)
      requires Valid()
      modifies this
      ensures Valid()
      ensures form == WithInput(old(form), name, value)
      ensures rooms == old(rooms) && selected == old(selected) && loading == old(loading)
      ensures error == old(error) && duplicateWarning == old(duplicateWarning)
    {
      form := WithInput(form, name, value);
    }

    /**
      `handleStatusChange`: with a room selected, a `PUT` of the form with the new
      status lower-cased and the price parsed; on success the selected room takes
      the payload's fields and the form the new status.
    */
    method ChangeStatus(newStatus: string, outcome: RequestOutcome) returns (request: Option<Request>)
      requires Valid()
      modifies this
      ensures Valid()
      ensures selected == old(selected) && loading == old(loading) && duplicateWarning == old(duplicateWarning)
      ensures old(SelectedRoom()).None? ==> request == None && rooms == old(rooms) && form == old(form) && error == old(error)
      ensures old(SelectedRoom()).Some? ==>
        var payload := Payload(old(form).tipo, ParseFloat(old(form).precio), Lower(newStatus), old(form).descripcion);
        request == Some(Put(ApiIdOf(old(SelectedRoom()).value), payload))
        && (outcome.Done? ==>
              rooms == UpdateSelected(old(rooms), old(selected).value, payload)
              && form == old(form).(estado := Lower(newStatus)) && error == "")
        && (outcome.Rejected? ==>
              rooms == old(rooms) && form == old(form) && error == RequestError(outcome, "Verifique los datos"))
    {
      var room := SelectedRoom();
      if room.None? {
        return None;
      }
      var payload := Payload(form.tipo, ParseFloat(form.precio), Lower(newStatus), form.descripcion);
      request := Some(Put(ApiIdOf(room.value), payload));
      if outcome.Done? {
        ApplyStatus(payload);
      } else {
        error := RequestError(outcome, "Verifique los datos");
      }
    }

    /** The success branch of `handleStatusChange`: the selected room and the form take the new status. */
    method ApplyStatus(payload: Payload)
      requires Valid() && selected.Some?
      modifies this
      ensures Valid()
      ensures selected == old(selected) && loading == old(loading) && duplicateWarning == old(duplicateWarning)
      ensures rooms == UpdateSelected(old(rooms), old(selected).value, payload)
      ensures form == old(form).(estado := payload.estado) && error == ""
    {
      UpdateKeepsSelection(rooms, selected.value, payload);
      rooms := UpdateSelected(rooms, selected.value, payload);
      form := form.(estado := payload.estado);
      error := "";
    }

    /**
      `handleSubmit`: a price that is NaN or not above 0 is refused with no
      request; otherwise a `PUT` for the selected room or a `POST`, and on success
      a fresh fetch and an empty form.
    */
    method Submit(saveOutcome: RequestOutcome, refetch: FetchOutcome) returns (request: Option<Request>)
      requires Valid()
      modifies this
      ensures Valid()
      ensures RefusedPrice(old(form).precio) ==>
        request == None && error == InvalidPrice
        && rooms == old(rooms) && selected == old(selected) && form == old(form)
        && loading == old(loading) && duplicateWarning == old(duplicateWarning)
      ensures !RefusedPrice(old(form).precio) ==>
        var payload := Payload(old(form).tipo, ParseFloat(old(form).precio), old(form).estado, old(form).descripcion);
        request == Some(if old(selected).Some? then Put(ApiIdOf(old(SelectedRoom()).value), payload) else Post(payload))
        && (saveOutcome.Done? ==>
              selected == None && form == EmptyForm && error == "" && !loading
              && (refetch.Fetched? ==> rooms == Normalised(refetch.data))
              && (refetch.Fetched? ==> (duplicateWarning <==> HasProblemIds(IdCounts(IdKeys(refetch.data)))))
              && (!refetch.Fetched? ==> rooms == old(rooms) && !duplicateWarning))
        && (saveOutcome.Rejected? ==>
              rooms == old(rooms) && selected == old(selected) && form == old(form)
              && loading == old(loading) && duplicateWarning == old(duplicateWarning)
              && error == RequestError(saveOutcome, "Verifique la conexión"))
    {
      if RefusedPrice(form.precio) {
        error := InvalidPrice;
        return None;
      }
      var payload := Payload(form.tipo, ParseFloat(form.precio), form.estado, form.descripcion);
      if selected.Some? {
        var room := SelectedRoom();
        var k :| 0 <= k < |rooms| && rooms[k].key == selected.value;
        assert room.Some?;
        request := Some(Put(ApiIdOf(room.value), payload));
      } else {
        request := Some(Post(payload));
      }
      if saveOutcome.Done? {
        FetchRooms(refetch);
        ResetForm();
        error := "";
      } else {
        error := RequestError(saveOutcome, "Verifique la conexión");
      }
    }

    /**
      `deleteRoom`: with a room selected and the deletion confirmed, a `DELETE`;
      on success the room leaves the list and the form is emptied.
    */
    method DeleteSelected(confirmed: bool, outcome: RequestOutcome) returns (request: Option<Request>)
      requires Valid()
      modifies this
      ensures Valid()
      ensures loading == old(loading) && duplicateWarning == old(duplicateWarning)
      ensures old(selected).None? || !confirmed ==>
        request == None && rooms == old(rooms) && selected == old(selected) && form == old(form) && error == old(error)
      ensures old(selected).Some? && confirmed ==>
        request == Some(Delete(ApiIdOf(old(SelectedRoom()).value)))
        && (outcome.Done? ==>
              rooms == Filter(NotKey(old(selected).value), old(rooms))
              && selected == None && form == EmptyForm && error == "")
        && (outcome.Rejected? ==>
              rooms == old(rooms) && selected == old(selected) && form == old(form) && error == DeleteError)
    {
      if selected.None? {
        return None;
      }
      var room := SelectedRoom();
      var k :| 0 <= k < |rooms| && rooms[k].key == selected.value;
      assert room.Some?;
      if !confirmed {
        return None;
      }
      request := Some(Delete(ApiIdOf(room.value)));
      if outcome.Done? {
        DeleteKeepsDistinctKeys(rooms, selected.value);
        rooms := Filter(NotKey(selected.value), rooms);
        ResetForm();
        error := "";
      } else {
        error := DeleteError;
      }
    }
  }
}
