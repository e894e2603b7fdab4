/** The multipart form of a post, read one part after the other. */
module Forms {
  import opened HubTypes

  datatype Upload = Upload(fileType: FileType, content: Bytes)

  /** What a form that was read to its end amounts to. */
  datatype PostForm = PostForm(
    opType: Option<OperationType>, seed: Option<Bytes>, files: seq<Upload>, psbt: Option<Bytes>)

  const EMPTY_FORM := PostForm(None, None, [], None)

  datatype Part =
    | TypePart(content: Bytes)
    | SeedPart(seed: Option<Bytes>)              // None when the text is not 64 hex digits
    | FilePart(suffix: string, content: Bytes)   // a field named `file_` and this suffix
    | OtherPart                                  // a field of any other name
    | BrokenPart                                 // a field that cannot be read

  /** The operation types by their codes. */
  function TypeOf(code: byte): (t: Option<OperationType>)
    ensures t == Some(CreateUtxos) <==> code == 1
    ensures t == Some(Issuance) <==> code == 2
    ensures t == Some(SendRgb) <==> code == 3
    ensures t == Some(SendBtc) <==> code == 4
    ensures t == Some(Inflation) <==> code == 5
    ensures t == Some(BlindReceive) <==> code == 6
    ensures t == Some(WitnessReceive) <==> code == 7
    ensures t == Some(Burn) <==> code == 8
  {
    match code
    case 1 => Some(CreateUtxos)
    case 2 => Some(Issuance)
    case 3 => Some(SendRgb)
    case 4 => Some(SendBtc)
    case 5 => Some(Inflation)
    case 6 => Some(BlindReceive)
    case 7 => Some(WitnessReceive)
    case 8 => Some(Burn)
    case _ => None
  }

  /** The name by which a file of each type is sent; response PSBTs are not posted. */
  predicate IsNamed(suffix: string, fileType: FileType) {
    match fileType
    case OperationPsbt => suffix == "psbt"
    case OperationData => suffix == "operation_data"
    case Fascia => suffix == "fascia"
    case Media => suffix == "media"
    case Consignment => suffix == "consignment"
    case ResponsePsbt => false
  }

  /** The file types by their names. */
  function FileTypeOf(suffix: string): (t: Option<FileType>)
    ensures t == Some(OperationPsbt) <==> suffix == "psbt"
    ensures t == Some(OperationData) <==> suffix == "operation_data"
    ensures t == Some(Fascia) <==> suffix == "fascia"
    ensures t == Some(Media) <==> suffix == "media"
    ensures t == Some(Consignment) <==> suffix == "consignment"
    ensures t != Some(FileType.ResponsePsbt)
  {
    assert |"psbt"| == 4 && |"operation_data"| == 14 && |"fascia"| == 6 && |"media"| == 5 && |"consignment"| == 11;
    if suffix == "psbt" then Some(OperationPsbt)
    else if suffix == "operation_data" then Some(OperationData)
    else if suffix == "fascia" then Some(Fascia)
    else if suffix == "media" then Some(Media)
    else if suffix == "consignment" then Some(Consignment)
    else None
  }

  /** One part; only the first byte of a type part is looked at, and an empty one has none. */
  function AddPart(form: PostForm, part: Part): (r: Result<PostForm, ApiError>)
    ensures r.Err? ==> r.error in {InvalidRequest, InvalidOperationType, Panic}
  {
    match part
    case TypePart(content) =>
      if content == [] then Err(Panic)
      else if TypeOf(content[0]).None? then Err(InvalidOperationType)
      else Ok(form.(opType := TypeOf(content[0])))
    case SeedPart(seed) =>
      if seed.None? then Err(InvalidRequest) else Ok(form.(seed := seed))
    case FilePart(suffix, content) =>
      if FileTypeOf(suffix).None? || content == [] then Err(InvalidRequest)
      else if FileTypeOf(suffix) == Some(OperationPsbt) then
        if form.psbt.Some? then Err(InvalidRequest) else Ok(form.(psbt := Some(content)))
      else Ok(form.(files := form.files + [Upload(FileTypeOf(suffix).value, content)]))
    case OtherPart => Err(InvalidRequest)
    case BrokenPart => Err(InvalidRequest)
  }

  /** The parts in order, up to the first one that is refused. */
  function ParsePost(parts: seq<Part>): (r: Result<PostForm, ApiError>)
    ensures r.Err? ==> r.error in {InvalidRequest, InvalidOperationType, Panic}
  {
    if parts == [] then Ok(EMPTY_FORM)
    else
      match ParsePost(parts[..|parts| - 1])
      case Err(error) => Err(error)
      case Ok(form) => AddPart(form, parts[|parts| - 1])
  }

  /** Once refused, a form stays refused for the same reason. */
  lemma {:induction false} RefusalStays(parts: seq<Part>, i: nat)
    requires i <= |parts| && ParsePost(parts[..i]).Err?
    ensures ParsePost(parts) == ParsePost(parts[..i])
    decreases |parts|
  {
    if i == |parts| {
      assert parts[..i] == parts;
    } else {
      assert parts[..|parts| - 1][..i] == parts[..i];
      RefusalStays(parts[..|parts| - 1], i);
    }
  }

  /** All the files of the form, the PSBT last. */
  function Uploads(form: PostForm): seq<Upload> {
    form.files + PsbtUploads(form.psbt, OperationPsbt)
  }

  function PsbtUploads(psbt: Option<Bytes>, fileType: FileType): seq<Upload> {
    if psbt.Some? then [Upload(fileType, psbt.value)] else []
  }

  function CodeOf(opType: OperationType): (code: byte)
    ensures TypeOf(code) == Some(opType)
  {
    match opType
    case CreateUtxos => 1
    case Issuance => 2
    case SendRgb => 3
    case SendBtc => 4
    case Inflation => 5
    case BlindReceive => 6
    case WitnessReceive => 7
    case Burn => 8
  }

  /** A form that proposes an operation with a PSBT. */
  function PartsFor(opType: OperationType, seed: Option<Bytes>): seq<Part> {
    [TypePart([CodeOf(opType)])] + (if seed.Some? then [SeedPart(seed)] else []) + [FilePart("psbt", [0])]
  }

  lemma ParseOneMore(parts: seq<Part>, part: Part)
    requires ParsePost(parts).Ok?
    ensures ParsePost(parts + [part]) == AddPart(ParsePost(parts).value, part)
  {
    assert (parts + [part])[..|parts|] == parts;
  }

  lemma PartsForParse(opType: OperationType, seed: Option<Bytes>)
    ensures ParsePost(PartsFor(opType, seed)) == Ok(PostForm(Some(opType), seed, [], Some([0])))
  {
    hide ParsePost, TypeOf, CodeOf;
    var first := [TypePart([CodeOf(opType)])];
    EmptyParses();
    ParseOneMore([], first[0]);
    assert [] + first == first;
    if seed.Some? {
      ParseOneMore(first, SeedPart(seed));
      ParseOneMore(first + [SeedPart(seed)], FilePart("psbt", [0]));
    } else {
      ParseOneMore(first, FilePart("psbt", [0]));
      assert first + [] == first;
    }
  }

  lemma EmptyParses()
    ensures ParsePost([]) == Ok(EMPTY_FORM)
  {
  }

  // ----- which forms are accepted -----

  predicate Good(part: Part) {
    match part
    case TypePart(content) => content != [] && TypeOf(content[0]).Some?
    case SeedPart(seed) => seed.Some?
    case FilePart(suffix, content) => FileTypeOf(suffix).Some? && content != []
    case _ => false
  }

  predicate IsPsbt(part: Part) {
    part.FilePart? && FileTypeOf(part.suffix) == Some(OperationPsbt)
  }

  ghost predicate Acceptable(parts: seq<Part>) {
    && (forall i | 0 <= i < |parts| :: Good(parts[i]))
    && (forall i, j | 0 <= i < j < |parts| :: !(IsPsbt(parts[i]) && IsPsbt(parts[j])))
  }

  /** A form is read to its end iff every part is good by itself and at most one is a PSBT;
      the uploads of the form are then exactly its file parts. */
  lemma {:induction false} ParsesIffAcceptable(parts: seq<Part>)
    ensures ParsePost(parts).Ok? <==> Acceptable(parts)
    ensures ParsePost(parts).Ok? ==>
              && (ParsePost(parts).value.psbt.Some? <==> exists i | 0 <= i < |parts| :: IsPsbt(parts[i]))
              && (ParsePost(parts).value.opType.Some? <==> exists i | 0 <= i < |parts| :: parts[i].TypePart?)
    decreases |parts|
  {
    if parts != [] {
      var before, last := parts[..|parts| - 1], parts[|parts| - 1];
      ParsesIffAcceptable(before);
      forall i | 0 <= i < |before| ensures before[i] == parts[i] {}
      if Acceptable(parts) {
        assert forall i | 0 <= i < |before| :: Good(before[i]) by {
          forall i | 0 <= i < |before| ensures Good(before[i]) { assert Good(parts[i]); }
        }
        assert Acceptable(before);
        assert Good(parts[|parts| - 1]);
      }
    }
  }

  // ----- what an accepted form holds -----

  /** The last type part decides the type, by its first byte. */
  ghost predicate HoldsType(parts: seq<Part>, opType: Option<OperationType>) {
    if opType.None? then forall i | 0 <= i < |parts| :: !parts[i].TypePart?
    else exists i | 0 <= i < |parts| ::
      && parts[i].TypePart? && parts[i].content != [] && parts[i].content[0] == CodeOf(opType.value)
      && forall j | i < j < |parts| :: !parts[j].TypePart?
  }

  /** The last seed part decides the seed. */
  ghost predicate HoldsSeed(parts: seq<Part>, seed: Option<Bytes>) {
    if seed.None? then forall i | 0 <= i < |parts| :: !parts[i].SeedPart?
    else exists i | 0 <= i < |parts| ::
      parts[i] == SeedPart(seed) && forall j | i < j < |parts| :: !parts[j].SeedPart?
  }

  function FilePositions(parts: seq<Part>): set<nat> {
    set i: nat | i < |parts| && parts[i].FilePart? && parts[i].suffix != "psbt"
  }

  /** The upload is the part at this position, under the type its name stands for. */
  predicate IsPart(parts: seq<Part>, i: nat, u: Upload) {
    && i < |parts| && parts[i].FilePart?
    && IsNamed(parts[i].suffix, u.fileType) && u.content == parts[i].content
  }

  /** The files are the file parts but the PSBT, one for one and in order. */
  ghost predicate HoldsFiles(parts: seq<Part>, files: seq<Upload>, at: seq<nat>) {
    && |at| == |files| && Lists(at, FilePositions(parts))
    && forall k | 0 <= k < |at| :: IsPart(parts, at[k], files[k])
  }

  predicate IsPsbtNamed(part: Part) {
    part.FilePart? && part.suffix == "psbt"
  }

  /** The PSBT is the content of the only part of that name. */
  ghost predicate HoldsPsbt(parts: seq<Part>, psbt: Option<Bytes>) {
    if psbt.None? then forall i | 0 <= i < |parts| :: !IsPsbtNamed(parts[i])
    else exists i | 0 <= i < |parts| ::
      parts[i] == FilePart("psbt", psbt.value) && forall j | 0 <= j < |parts| && j != i :: !IsPsbtNamed(parts[j])
  }

  lemma PositionsOneMore(parts: seq<Part>, last: Part)
    ensures FilePositions(parts + [last])
         == FilePositions(parts) + if last.FilePart? && last.suffix != "psbt" then {|parts|} else {}
  {
    var more := parts + [last];
    assert more[|parts|] == last && forall i: nat | i < |parts| :: more[i] == parts[i];
  }

  lemma PositionsBelow(parts: seq<Part>)
    ensures forall i | i in FilePositions(parts) :: i < |parts|
  {
  }

  lemma IsPartStays(parts: seq<Part>, last: Part, i: nat, u: Upload)
    requires IsPart(parts, i, u)
    ensures IsPart(parts + [last], i, u)
  {
  }

  lemma LastIsPart(parts: seq<Part>, last: Part, form: PostForm)
    requires last.FilePart? && last.suffix != "psbt" && AddPart(form, last).Ok?
    ensures FileTypeOf(last.suffix).Some?
    ensures var u := Upload(FileTypeOf(last.suffix).value, last.content);
            AddPart(form, last).value.files == form.files + [u] && IsPart(parts + [last], |parts|, u)
  {
  }

  lemma OtherAddsNoFile(last: Part, form: PostForm)
    requires !(last.FilePart? && last.suffix != "psbt") && AddPart(form, last).Ok?
    ensures AddPart(form, last).value.files == form.files
  {
  }

  lemma HoldsOneMore(parts: seq<Part>, last: Part, form: PostForm, at: seq<nat>)
    requires HoldsFiles(parts, form.files, at) && AddPart(form, last).Ok?
    ensures HoldsFiles(parts + [last], AddPart(form, last).value.files,
                       if last.FilePart? && last.suffix != "psbt" then at + [|parts|] else at)
  {
    hide Lists, FilePositions, IsPart, AddPart, FileTypeOf;
    PositionsOneMore(parts, last);
    forall k | 0 <= k < |at| ensures IsPart(parts + [last], at[k], form.files[k]) {
      IsPartStays(parts, last, at[k], form.files[k]);
    }
    if last.FilePart? && last.suffix != "psbt" {
      PositionsBelow(parts);
      ListsOneMore(at, FilePositions(parts), |parts|);
      LastIsPart(parts, last, form);
    } else {
      assert FilePositions(parts) + {} == FilePositions(parts);
      OtherAddsNoFile(last, form);
    }
  }

  lemma FieldsOneMore(parts: seq<Part>, last: Part, form: PostForm)
    requires HoldsType(parts, form.opType) && HoldsSeed(parts, form.seed) && HoldsPsbt(parts, form.psbt)
    requires AddPart(form, last).Ok?
    ensures var more, after := parts + [last], AddPart(form, last).value;
            HoldsType(more, after.opType) && HoldsSeed(more, after.seed) && HoldsPsbt(more, after.psbt)
  {
    hide HoldsType, HoldsSeed, HoldsPsbt, AddPart;
    TypeOneMore(parts, last, form);
    SeedOneMore(parts, last, form);
    PsbtOneMore(parts, last, form);
  }

  lemma PsbtOneMore(parts: seq<Part>, last: Part, form: PostForm)
    requires HoldsPsbt(parts, form.psbt) && AddPart(form, last).Ok?
    ensures HoldsPsbt(parts + [last], AddPart(form, last).value.psbt)
  {
    var more := parts + [last];
    assert more[|parts|] == last && forall i: nat | i < |parts| :: more[i] == parts[i];
    if form.psbt.Some? {
      var i :| 0 <= i < |parts| && parts[i] == FilePart("psbt", form.psbt.value)
               && forall j | 0 <= j < |parts| && j != i :: !IsPsbtNamed(parts[j]);
      assert more[i] == parts[i];
    }
  }

  lemma TypeOneMore(parts: seq<Part>, last: Part, form: PostForm)
    requires HoldsType(parts, form.opType) && AddPart(form, last).Ok?
    ensures HoldsType(parts + [last], AddPart(form, last).value.opType)
  {
    var more := parts + [last];
    if last.TypePart? {
      assert more[|parts|] == last;
    } else if form.opType.Some? {
      var i :| 0 <= i < |parts| && parts[i].TypePart? && parts[i].content != []
               && parts[i].content[0] == CodeOf(form.opType.value) && forall j | i < j < |parts| :: !parts[j].TypePart?;
      assert more[i] == parts[i];
    }
  }

  lemma SeedOneMore(parts: seq<Part>, last: Part, form: PostForm)
    requires HoldsSeed(parts, form.seed) && AddPart(form, last).Ok?
    ensures HoldsSeed(parts + [last], AddPart(form, last).value.seed)
  {
    var more := parts + [last];
    if last.SeedPart? {
      assert more[|parts|] == last;
    } else if form.seed.Some? {
      var i :| 0 <= i < |parts| && parts[i] == SeedPart(form.seed) && forall j | i < j < |parts| :: !parts[j].SeedPart?;
      assert more[i] == parts[i];
    }
  }

  /** An accepted form holds what its parts say: the type and the seed of the last such
      part, and the files and the PSBT under the types their names stand for, no more and
      no fewer. */
  lemma {:induction false} FormHolds(parts: seq<Part>) returns (at: seq<nat>)
    requires ParsePost(parts).Ok?
    ensures var form := ParsePost(parts).value;
            && HoldsType(parts, form.opType) && HoldsSeed(parts, form.seed)
            && HoldsFiles(parts, form.files, at) && HoldsPsbt(parts, form.psbt)
    decreases |parts|
  {
    hide HoldsType, HoldsSeed, HoldsFiles, HoldsPsbt, AddPart;
    if parts == [] {
      at := [];
      EmptyHolds();
    } else {
      var before, last := parts[..|parts| - 1], parts[|parts| - 1];
      assert parts == before + [last];
      at := FormHolds(before);
      HoldsOneMore(before, last, ParsePost(before).value, at);
      FieldsOneMore(before, last, ParsePost(before).value);
      at := if last.FilePart? && last.suffix != "psbt" then at + [|before|] else at;
    }
  }

  lemma EmptyHolds()
    ensures HoldsType([], None) && HoldsSeed([], None) && HoldsFiles([], [], []) && HoldsPsbt([], None)
  {
  }

  /** Why a part is refused after the parts before it were read. */
  ghost predicate RefusedFor(form: PostForm, part: Part, error: ApiError) {
    match part
    case TypePart(content) =>
      || (content == [] && error == Panic)
      || (content != [] && !(1 <= content[0] <= 8) && error == InvalidOperationType)
    case SeedPart(seed) => seed.None? && error == InvalidRequest
    case FilePart(suffix, content) =>
      && error == InvalidRequest
      && (content == [] || suffix !in {"psbt", "operation_data", "fascia", "media", "consignment"}
          || (suffix == "psbt" && form.psbt.Some?))
    case _ => error == InvalidRequest
  }

  /** This part is refused, for this reason, after all the parts before it were read. */
  ghost predicate RefusedAt(parts: seq<Part>, i: nat, error: ApiError) {
    i < |parts| && ParsePost(parts[..i]).Ok? && RefusedFor(ParsePost(parts[..i]).value, parts[i], error)
  }

  lemma RefusedAtPrefix(parts: seq<Part>, last: Part, i: nat, error: ApiError)
    requires i < |parts|
    ensures RefusedAt(parts + [last], i, error) <==> RefusedAt(parts, i, error)
  {
    assert (parts + [last])[..i] == parts[..i];
  }

  lemma RefusedAtEnd(parts: seq<Part>, last: Part, error: ApiError)
    ensures RefusedAt(parts + [last], |parts|, error) <==>
            ParsePost(parts).Ok? && AddPart(ParsePost(parts).value, last) == Err(error)
  {
    hide AddPart, RefusedFor, ParsePost;
    assert (parts + [last])[..|parts|] == parts;
    if ParsePost(parts).Ok? {
      PartRefused(ParsePost(parts).value, last, error);
    }
  }

  /** A form is refused exactly for the first part that is. */
  lemma {:induction false} RefusedForFirstBad(parts: seq<Part>, error: ApiError)
    ensures ParsePost(parts) == Err(error) <==> exists i :: RefusedAt(parts, i, error)
    decreases |parts|
  {
    hide AddPart, RefusedAt;
    if parts == [] {
      forall i: nat ensures !RefusedAt(parts, i, error) {
        NoneRefused(i, error);
      }
    } else {
      var before, last := parts[..|parts| - 1], parts[|parts| - 1];
      assert parts == before + [last];
      RefusedForFirstBad(before, error);
      RefusedAtEnd(before, last, error);
      forall i: nat ensures RefusedAt(parts, i, error) <==>
          (i < |before| && RefusedAt(before, i, error)) || (i == |before| && RefusedAt(parts, |before|, error))
      {
        WithinBounds(parts, i, error);
        if i < |before| {
          RefusedAtPrefix(before, last, i, error);
        }
      }
      forall i: nat | RefusedAt(before, i, error) ensures i < |before| {
        WithinBounds(before, i, error);
      }
    }
  }

  lemma NoneRefused(i: nat, error: ApiError)
    ensures !RefusedAt([], i, error)
  {
  }

  lemma WithinBounds(parts: seq<Part>, i: nat, error: ApiError)
    ensures RefusedAt(parts, i, error) ==> i < |parts|
  {
  }

  lemma PartRefused(form: PostForm, part: Part, error: ApiError)
    ensures AddPart(form, part) == Err(error) <==> RefusedFor(form, part, error)
  {
    if part.TypePart? && part.content != [] && TypeOf(part.content[0]).Some? {
      var opType := TypeOf(part.content[0]).value;
      assert 1 <= CodeOf(opType) <= 8;
    }
  }

  /** Reading the form panics iff an empty type part comes before any part that would be
      refused. */
  lemma {:induction false} PanicsIffEmptyType(parts: seq<Part>)
    ensures ParsePost(parts) == Err(Panic) <==>
            exists i | 0 <= i < |parts| :: parts[i] == TypePart([]) && ParsePost(parts[..i]).Ok?
    decreases |parts|
  {
    if parts != [] {
      var before := parts[..|parts| - 1];
      PanicsIffEmptyType(before);
      assert forall i | 0 <= i <= |before| :: before[..i] == parts[..i];
      if exists i | 0 <= i < |parts| :: parts[i] == TypePart([]) && ParsePost(parts[..i]).Ok? {
        var i :| 0 <= i < |parts| && parts[i] == TypePart([]) && ParsePost(parts[..i]).Ok?;
        if i < |before| { assert before[i] == TypePart([]) && ParsePost(before[..i]).Ok?; }
      }
      if ParsePost(before) == Err(Panic) {
        var i :| 0 <= i < |before| && before[i] == TypePart([]) && ParsePost(before[..i]).Ok?;
        assert parts[i] == TypePart([]) && ParsePost(parts[..i]).Ok?;
      }
    }
  }
}
