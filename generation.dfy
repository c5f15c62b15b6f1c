/** 3D generation on the backend: the checks of the generate route, the search
    for the photogrammetry command-line tool, the progress it reports, the
    progress table and the progress event stream. */
module Generation {
  import opened Js
  import Lists
  import Text
  import Store

  // ---------------------------------------------------------------- photos

  /** `/\.(jpg|jpeg|png|heic|heif)$/i` */
  predicate IsPhotoName(f: string) {
    var l := Text.Lower(f);
    Text.EndsWith(l, ".jpg") || Text.EndsWith(l, ".jpeg") || Text.EndsWith(l, ".png")
    || Text.EndsWith(l, ".heic") || Text.EndsWith(l, ".heif")
  }

  /** The extension test ignores case. */
  lemma PhotoNameIgnoresCase(f: string)
    ensures IsPhotoName(Text.Lower(f)) == IsPhotoName(f)
  {
    Text.LowerIdempotent(f);
  }

  /** The photos of a directory listing, in listing order. */
  function Photos(files: seq<string>): (r: seq<string>)
    ensures Lists.IsSubseq(r, files)
    ensures forall i :: 0 <= i < |r| ==> IsPhotoName(r[i])
    ensures forall i :: 0 <= i < |files| && IsPhotoName(files[i]) ==> files[i] in r
  {
    Lists.FilterIsSubseq(files, IsPhotoName);
    Lists.Filter(files, IsPhotoName)
  }

  const MinPhotos := 20

  /** What the generate route decides before it starts a run. */
  datatype Check = ProductMissing | NoPhotoDir | TooFewPhotos | Accepted(product: Record, photos: seq<string>)

  /** `POST /api/products/:id/generate`, up to the start of the run: an unknown
      product, a missing photo directory and fewer than twenty photos are
      refused, in that order. `photoDir` is the directory listing, `None` when
      the directory does not exist. */
  function CheckRequest(products: seq<Record>, id: string, photoDir: Option<seq<string>>): (c: Check)
    ensures c.ProductMissing? <==> forall i :: 0 <= i < |products| ==> !Store.HasId(products[i], id)
    ensures c.NoPhotoDir? <==> !c.ProductMissing? && photoDir.None?
    ensures c.TooFewPhotos? <==> !c.ProductMissing? && photoDir.Some? && |Photos(photoDir.value)| < MinPhotos
    ensures c.Accepted? ==> (c.product in products && Store.HasId(c.product, id)
      && c.photos == Photos(photoDir.value) && |c.photos| >= MinPhotos)
  {
    var k := Lists.FindIndex(products, Store.IdIs(id));
    if k < 0 then ProductMissing
    else if photoDir.None? then NoPhotoDir
    else
      var photos := Photos(photoDir.value);
      if |photos| < MinPhotos then TooFewPhotos else Accepted(products[k], photos)
  }

  /** The route's reply for each decision. */
  function CheckReply(c: Check, id: string): (r: Store.Reply)
    ensures r.Error? <==> !c.Accepted?
    ensures c.ProductMissing? ==> r == Store.Error(404, "Product not found")
    ensures c.NoPhotoDir? ==> r == Store.Error(400, "No photos found")
    ensures c.TooFewPhotos? ==> r == Store.Error(400, "Minimum 20 photos required")
    ensures c.Accepted? ==> r == Store.Json(map["status" := Str("started"), "productId" := Str(id)])
  {
    match c
    case ProductMissing => Store.Error(404, "Product not found")
    case NoPhotoDir => Store.Error(400, "No photos found")
    case TooFewPhotos => Store.Error(400, "Minimum 20 photos required")
    case Accepted(_, _) => Store.Json(map["status" := Str("started"), "productId" := Str(id)])
  }

  // ---------------------------------------------------------------- the command-line tool

  /** The places the tool is looked for, `root` being the repository root. */
  function CliCandidates(root: string): (paths: seq<string>)
    ensures |paths| == 6
  {
    [ root + "/swift-cli/.build/release/PhotoTo3D",
      root + "/swift-cli/.build/debug/PhotoTo3D",
      root + "/Swift-cli/.build/release/PhotoTo3D",
      root + "/Swift-cli/.build/debug/PhotoTo3D",
      "/Users/yusufkerimsaritas/Desktop/ar-menu-glb/swift-cli/.build/release/PhotoTo3D",
      "/Users/yusufkerimsaritas/Desktop/ar-menu-glb/swift-cli/.build/debug/PhotoTo3D" ]
  }

  /** `findPhotoTo3D`: the first candidate that exists, or nothing. */
  method FindPhotoTo3D(candidates: seq<string>, existing: set<string>) returns (found: Option<string>)
    ensures found.None? <==> forall i :: 0 <= i < |candidates| ==> candidates[i] !in existing
    ensures found.Some? ==> exists k :: (0 <= k < |candidates| && candidates[k] == found.value
      && found.value in existing && forall i :: 0 <= i < k ==> candidates[i] !in existing)
  {
    var i := 0;
    while i < |candidates|
      invariant 0 <= i <= |candidates|
      invariant forall j :: 0 <= j < i ==> candidates[j] !in existing
    {
      if candidates[i] in existing {
        return Some(candidates[i]);
      }
      i := i + 1;
    }
    return None;
  }

  // ---------------------------------------------------------------- progress

  datatype Stage = Queued | Processing | Generating | Finalizing | Converting | Completed | Failed | Unknown

  /** The `stage` text each stage is reported as. */
  function StageName(s: Stage): string {
    match s
    case Queued => "queued"
    case Processing => "processing"
    case Generating => "generating"
    case Finalizing => "finalizing"
    case Converting => "converting"
    case Completed => "completed"
    case Failed => "error"
    case Unknown => "unknown"
  }

  datatype Progress = Progress(stage: Stage, progress: int, message: string)

  /** `stage === 'completed' || stage === 'error'` */
  predicate Terminal(p: Progress) {
    StageName(p.stage) == "completed" || StageName(p.stage) == "error"
  }

  /** Only a completed or failed run is terminal. */
  lemma TerminalStages(p: Progress)
    ensures Terminal(p) <==> p.stage == Completed || p.stage == Failed
  {
  }

  /** The number of whitespace characters at position `i`. */
  function SpacesAt(s: string, i: nat): (n: nat)
    requires i <= |s|
    ensures i + n <= |s|
    ensures forall j :: i <= j < i + n ==> Text.IsSpace(s[j])
    ensures i + n < |s| ==> !Text.IsSpace(s[i + n])
    decreases |s| - i
  {
    if i < |s| && Text.IsSpace(s[i]) then 1 + SpacesAt(s, i + 1) else 0
  }

  /** The number of decimal digits at position `i`. */
  function DigitsAt(s: string, i: nat): (n: nat)
    requires i <= |s|
    ensures i + n <= |s|
    ensures forall j :: i <= j < i + n ==> Text.IsDigit(s[j])
    ensures i + n < |s| ==> !Text.IsDigit(s[i + n])
    decreases |s| - i
  {
    if i < |s| && Text.IsDigit(s[i]) then 1 + DigitsAt(s, i + 1) else 0
  }

  const ProgressTag := "Ilerleme:"

  /** `Ilerleme:\s*%(\d+)` matched at position `i`: the number it captures. */
  function PercentAt(s: string, i: nat): (r: Option<nat>)
    requires i <= |s|
  {
    if !Text.OccursAt(s, ProgressTag, i) then None
    else
      var j := i + |ProgressTag| + SpacesAt(s, i + |ProgressTag|);
      if j < |s| && s[j] == '%' && DigitsAt(s, j + 1) > 0 then
        Some(Text.DigitsValue(s[j + 1..j + 1 + DigitsAt(s, j + 1)]))
      else None
  }

  /** The leftmost match at or after position `i`. */
  function FirstPercent(s: string, i: nat): (r: Option<nat>)
    requires i <= |s|
    ensures r.None? <==> forall j :: i <= j <= |s| ==> PercentAt(s, j).None?
    ensures r.Some? ==> exists j :: (i <= j <= |s| && PercentAt(s, j) == r
      && forall m :: i <= m < j ==> PercentAt(s, m).None?)
    decreases |s| - i
  {
    if PercentAt(s, i).Some? then PercentAt(s, i)
    else if i == |s| then None
    else FirstPercent(s, i + 1)
  }

  /** `output.match(/Ilerleme:\s*%(\d+)/)` followed by `parseInt` of the group. */
  function ParsePercent(output: string): Option<nat> {
    FirstPercent(output, 0)
  }

  /** The line the tool prints for a percentage is read back as that percentage. */
  lemma ParsesToolLine(n: nat)
    ensures ParsePercent("Ilerleme: %" + Text.DecimalText(n) + "\n") == Some(n)
  {
    var d := Text.DecimalText(n);
    var s := "Ilerleme: %" + d + "\n";
    assert s[..9] == ProgressTag;
    assert Text.OccursAt(s, ProgressTag, 0);
    assert s[9] == ' ' && s[10] == '%';
    assert SpacesAt(s, 10) == 0;
    assert SpacesAt(s, 9) == 1;
    assert forall j :: 0 <= j < |d| ==> s[11 + j] == d[j];
    DigitsRun(s, 11, |d|);
    assert s[11..11 + |d|] == d;
    Text.DecimalRoundTrip(n);
  }

  /** A run of `n` digits at `i` followed by a non-digit or the end is what
      `DigitsAt` counts. */
  lemma {:induction false} DigitsRun(s: string, i: nat, n: nat)
    requires i + n <= |s|
    requires forall j :: i <= j < i + n ==> Text.IsDigit(s[j])
    requires i + n < |s| ==> !Text.IsDigit(s[i + n])
    ensures DigitsAt(s, i) == n
    decreases n
  {
    if n > 0 {
      DigitsRun(s, i + 1, n - 1);
    }
  }

  /** `Math.floor(percent * 0.7)` in double precision. Up to 100 the product
      rounds below the exact value only at 90 (62.99999999999999). */
  function FloorSevenTenths(percent: nat): nat {
    if percent == 90 then 62 else percent * 7 / 10
  }

  /** The reported progress for a tool percentage: `15 + floor(0.7 * p)`. */
  function MappedProgress(percent: nat): (r: int)
    ensures percent <= 100 ==> 15 <= r <= 85
    ensures percent == 0 ==> r == 15
    ensures percent == 100 ==> r == 85
  {
    15 + FloorSevenTenths(percent)
  }

  /** A higher tool percentage never shows less progress. */
  lemma MappedProgressMonotone(p: nat, q: nat)
    requires p <= q <= 100
    ensures MappedProgress(p) <= MappedProgress(q)
  {
  }

  /** The progress a percentage is reported as. */
  function PercentProgress(percent: nat): (p: Progress)
    ensures !Terminal(p) && p.stage == Generating
    ensures percent <= 100 ==> 15 <= p.progress <= 85
  {
    Progress(Generating, MappedProgress(percent), "3D model oluşturuluyor... %" + Text.DecimalText(percent))
  }

  /** `output.includes('TAMAMLANDI') || output.includes('Model basariyla')` */
  predicate Completes(chunk: string) {
    Text.Contains(chunk, "TAMAMLANDI") || Text.Contains(chunk, "Model basariyla")
  }

  const FinalizingProgress := Progress(Finalizing, 85, "Model tamamlandı, dosya kaydediliyor...")

  /** The progress written for one chunk of the tool's output: a percentage,
      then the completion marker, which wins when a chunk holds both. */
  function ChunkWrites(chunk: string): (w: seq<Progress>)
    ensures |w| <= 2
    ensures forall i :: 0 <= i < |w| ==> !Terminal(w[i])
    ensures Completes(chunk) ==> w != [] && w[|w| - 1] == FinalizingProgress
    ensures ParsePercent(chunk).Some? && ParsePercent(chunk).value <= 100 ==> (w != [] && 15 <= w[0].progress <= 85)
    ensures w == [] <==> ParsePercent(chunk).None? && !Completes(chunk)
  {
    (match ParsePercent(chunk)
     case None => []
     case Some(p) => [PercentProgress(p)])
    + (if Completes(chunk) then [FinalizingProgress] else [])
  }

  /** The entry a chunk leaves: the last of its writes, if any. */
  function LastWrite(chunk: string): Option<Progress> {
    Latest(ParsePercent(chunk), Completes(chunk))
  }

  /** The last write for a parsed percentage and a completion marker. */
  function Latest(percent: Option<nat>, completes: bool): Option<Progress> {
    if completes then Some(FinalizingProgress)
    else if percent.Some? then Some(PercentProgress(percent.value))
    else None
  }

  /** The entry a chunk leaves is the last of the writes it makes. */
  lemma LastWriteIsLast(chunk: string)
    ensures LastWrite(chunk).None? <==> ChunkWrites(chunk) == []
    ensures LastWrite(chunk).Some? ==> LastWrite(chunk).value == ChunkWrites(chunk)[|ChunkWrites(chunk)| - 1]
  {
  }

  /** All the writes for a sequence of chunks, in order. */
  function OutputWrites(chunks: seq<string>): (w: seq<Progress>)
    ensures forall i :: 0 <= i < |w| ==> !Terminal(w[i])
  {
    if chunks == [] then [] else ChunkWrites(chunks[0]) + OutputWrites(chunks[1..])
  }

  // ---------------------------------------------------------------- a whole run

  /** What the outside world does during a run: whether the tool is found,
      whether building it is attempted and yields it, whether the placeholder
      is written, the tool's output chunks and success, whether the USDZ file
      appears and is converted, and the message of a failure. */
  datatype Run = Run(
    cliFound: bool,
    packagePresent: bool,
    buildYieldsCli: bool,
    placeholderWritten: bool,
    chunks: seq<string>,
    cliSucceeds: bool,
    usdzCreated: bool,
    converted: bool,
    failure: string)

  /** The tool is found at once or after building it. */
  predicate HaveCli(r: Run) {
    r.cliFound || (r.packagePresent && r.buildYieldsCli)
  }

  /** The entries `generate3DModel` writes before its last one. */
  function Steps(r: Run): (t: seq<Progress>)
    ensures forall i :: 0 <= i < |t| ==> !Terminal(t[i])
  {
    if !HaveCli(r) then StartSteps(r) + [Progress(Generating, 50, "Test modeli oluşturuluyor...")]
    else StartSteps(r) + ToolSteps(r)
  }

  /** Checking the photos, and building the tool when it is not installed. */
  function StartSteps(r: Run): (t: seq<Progress>)
    ensures forall i :: 0 <= i < |t| ==> !Terminal(t[i])
  {
    [Progress(Processing, 5, "Fotoğraflar kontrol ediliyor...")]
      + (if !r.cliFound && r.packagePresent then [Progress(Processing, 10, "Swift-cli derleniyor...")] else [])
  }

  /** Running the tool: its start, its output, and the conversion to GLB. */
  function ToolSteps(r: Run): (t: seq<Progress>)
    ensures forall i :: 0 <= i < |t| ==> !Terminal(t[i])
  {
    [Progress(Generating, 15, "Object Capture başlatılıyor...")] + OutputWrites(r.chunks)
      + (if r.cliSucceeds && r.usdzCreated then [Progress(Converting, 90, "GLB formatına dönüştürülüyor...")] else [])
  }

  /** The last entry of a run: completed, or failed with the error's message. */
  function Outcome(r: Run): (p: Progress)
    ensures Terminal(p)
  {
    if !HaveCli(r) then
      if r.placeholderWritten then Progress(Completed, 100, "3D model oluşturuldu (test modu)")
      else Progress(Failed, 0, "Hata: " + r.failure)
    else if !r.cliSucceeds then Progress(Failed, 0, "Hata: " + r.failure)
    else if !r.usdzCreated then Progress(Failed, 0, "Hata: USDZ dosyası oluşturulamadı")
    else Progress(Completed, 100, "3D model başarıyla oluşturuldu!")
  }

  /** `generate3DModel`: the progress entries written for the product, in order,
      after the queued one. Only the last is terminal. */
  function Trace(r: Run): (t: seq<Progress>)
    ensures t != [] && Terminal(t[|t| - 1])
    ensures forall i :: 0 <= i < |t| - 1 ==> !Terminal(t[i])
  {
    Steps(r) + [Outcome(r)]
  }

  /** The product's `glbFile` after a run: the GLB when one was written or
      converted, the USDZ file when conversion failed, unchanged on failure. */
  function GlbAfter(r: Run, id: string, before: Value): Value {
    if !HaveCli(r) then (if r.placeholderWritten then Str(id + ".glb") else before)
    else if r.cliSucceeds && r.usdzCreated then Str(id + (if r.converted then ".glb" else ".usdz"))
    else before
  }

  /** A run completes exactly when it leaves a model file on the product. */
  lemma CompletedSetsModel(r: Run, id: string)
    ensures Trace(r)[|Trace(r)| - 1].stage == Completed <==> GlbAfter(r, id, Null) != Null
  {
    assert Trace(r)[|Trace(r)| - 1] == Outcome(r);
  }

  // ---------------------------------------------------------------- the table

  const UnknownProgress := Progress(Unknown, 0, "Durum bilinmiyor")

  /** `generationProgress`: the latest progress of each product's run. */
  class ProgressTable {
    var entries: map<string, Progress>

    constructor ()
      ensures entries == map[]
    {
      entries := map[];
    }

    /** The entry the stream reports: the product's, or `unknown` without one. */
    function Current(id: string): (p: Progress)
      reads this
      ensures id !in entries ==> p == UnknownProgress && !Terminal(p)
      ensures id in entries ==> p == entries[id]
    {
      if id in entries then entries[id] else UnknownProgress
    }

    /** The generate route queues the product before it replies. */
    method Queue(id: string)
      modifies this
      ensures entries == old(entries)[id := Progress(Queued, 0, "Sıraya alındı...")]
    {
      entries := entries[id := Progress(Queued, 0, "Sıraya alındı...")];
    }

    /** One assignment of `generationProgress[id]`. */
    method Write(id: string, p: Progress)
      modifies this
      ensures entries == old(entries)[id := p]
    {
      entries := entries[id := p];
    }

    /** The tool's stdout handler for one chunk: the entry ends as the last
        write of the chunk, and other products are untouched. */
    method HandleOutput(id: string, chunk: string)
      modifies this
      ensures LastWrite(chunk).None? ==> entries == old(entries)
      ensures LastWrite(chunk).Some? ==> entries == old(entries)[id := LastWrite(chunk).value]
      ensures forall other :: other != id ==> Current(other) == old(Current(other))
    {
      var m := ParsePercent(chunk);
      var done := Completes(chunk);
      assert Latest(m, done) == LastWrite(chunk);
      WriteChunk(id, m, done);
    }

    /** The handler's writes once the chunk is read: the percentage, then the
        completion marker. */
    method WriteChunk(id: string, percent: Option<nat>, completes: bool)
      modifies this
      ensures Latest(percent, completes).None? ==> entries == old(entries)
      ensures Latest(percent, completes).Some? ==> entries == old(entries)[id := Latest(percent, completes).value]
      ensures forall other :: other != id ==> Current(other) == old(Current(other))
    {
      if percent.Some? {
        Write(id, PercentProgress(percent.value));
      }
      if completes {
        Write(id, FinalizingProgress);
      }
    }

    /** Playing a run's trace into the table leaves its last entry, which is
        terminal. */
    method Play(id: string, t: seq<Progress>)
      requires t != []
      modifies this
      ensures entries == old(entries)[id := t[|t| - 1]]
    {
      var i := 0;
      while i < |t|
        invariant 0 <= i <= |t|
        invariant i == 0 ==> entries == old(entries)
        invariant i > 0 ==> entries == old(entries)[id := t[i - 1]]
      {
        entries := entries[id := t[i]];
        i := i + 1;
      }
    }
  }

  /** After a run the stream of its product ends. */
  lemma RunEndsStream(r: Run, table: map<string, Progress>, id: string)
    ensures Terminal((table[id := Trace(r)[|Trace(r)| - 1]])[id])
  {
  }

  // ---------------------------------------------------------------- the stream

  /** One `sendProgress`: the event sent and whether the stream ends with it. */
  datatype Tick = Tick(sent: Progress, ends: bool)

  function SendProgress(entries: map<string, Progress>, id: string): (t: Tick)
    ensures t.ends <==> Terminal(t.sent)
    ensures id !in entries ==> t.sent == UnknownProgress && !t.ends
    ensures id in entries ==> t.sent == entries[id]
  {
    var p := if id in entries then entries[id] else UnknownProgress;
    Tick(p, Terminal(p))
  }

  /** The events of a stream that samples the table once per tick: every
      sample until the first terminal one, inclusive. */
  function Stream(samples: seq<Progress>): (events: seq<Progress>)
    ensures |events| <= |samples| && events == samples[..|events|]
    ensures forall i :: 0 <= i < |events| - 1 ==> !Terminal(events[i])
    ensures events == samples || (events != [] && Terminal(events[|events| - 1]))
  {
    if samples == [] then []
    else if Terminal(samples[0]) then [samples[0]]
    else [samples[0]] + Stream(samples[1..])
  }

  /** The stream ends exactly at the first terminal sample. */
  lemma {:induction false} StreamStopsAtFirstTerminal(samples: seq<Progress>, k: nat)
    requires k < |samples| && Terminal(samples[k])
    requires forall i :: 0 <= i < k ==> !Terminal(samples[i])
    ensures Stream(samples) == samples[..k + 1]
  {
    if k == 0 {
      assert samples[..1] == [samples[0]];
    } else {
      var t := samples[1..];
      assert !Terminal(samples[0]);
      forall i | 0 <= i < k - 1
        ensures !Terminal(t[i])
      {
        assert t[i] == samples[i + 1];
      }
      StreamStopsAtFirstTerminal(t, k - 1);
      assert samples[..k + 1] == [samples[0]] + t[..k];
    }
  }

  /** A stream for a product the table does not know never ends by itself. */
  lemma UnknownNeverEnds(n: nat)
    ensures Stream(seq(n, _ => UnknownProgress)) == seq(n, _ => UnknownProgress)
  {
    var s := seq(n, _ => UnknownProgress);
    assert forall i :: 0 <= i < |s| ==> !Terminal(s[i]);
  }
}
