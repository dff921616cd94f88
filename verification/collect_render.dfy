/** `CollectBlenderRender.process`, the part that turns an instance's
    render settings into the publish record: both product lists are
    expanded into expected files over the same frame range, step and
    extension, the two mappings are merged with the AOV side winning, and
    the record's fixed and derived fields are filled in.

    The pyblish instance and context become the typed `Job`; the scene's
    frame step, which the source reads from Blender, is a parameter. */
module CollectRender {
  import opened ExpectedFiles

  datatype Option<T> = None | Some(value: T) {
    /** `d.get(key, default)` for a key that may be absent. */
    function GetOr(default: T): (r: T)
      ensures this.Some? ==> r == this.value
      ensures this.None? ==> r == default
    {
      match this
      case Some(v) => v
      case None => default
    }
  }

  datatype Result<T, E> = Ok(value: T) | Err(error: E)

  /** The `render_data` dictionary stored on the instance node. `review`
      is optional; the other keys are always written by the creator. */
  datatype RenderData = RenderData(
    renderProduct: seq<Product>,
    aovFileProduct: seq<Product>,
    imageFormat: string,
    multilayerExr: bool,
    review: Option<bool>)

  /** What `process` reads from the instance and its context. A missing
      or empty `render_data` dictionary is `None`. */
  datatype Job = Job(
    renderData: Option<RenderData>,
    frameStartHandle: int,
    frameEndHandle: int,
    fps: real,
    creatorStep: Option<int>)

  /** `colorspace.ARenderProduct(frame_start, frame_end)`, kept as the pair
      of handles it is built from. */
  datatype RenderProducts = RenderProducts(frameStart: int, frameEnd: int)

  /** The fields `process` writes into the instance data. */
  datatype Record = Record(
    families: seq<string>,
    fps: real,
    byFrameStep: int,
    review: bool,
    multipartExr: bool,
    farm: bool,
    expectedFiles: seq<map<string, seq<string>>>,
    colorspaceConfig: string,
    colorspaceDisplay: string,
    colorspaceView: string,
    renderProducts: RenderProducts)

  datatype CollectError = MissingRenderData

  /** Python's `beauty | aovs`: every key of either side; on a key both
      sides hold, the right-hand (AOV) value wins. */
  function Merge(beauty: map<string, seq<string>>, aovs: map<string, seq<string>>)
    : (r: map<string, seq<string>>)
    ensures r.Keys == beauty.Keys + aovs.Keys
    ensures forall k :: k in aovs ==> r[k] == aovs[k]
    ensures forall k :: k in beauty && k !in aovs ==> r[k] == beauty[k]
    ensures aovs == map[] ==> r == beauty
    ensures beauty == map[] ==> r == aovs
  {
    beauty + aovs
  }

  /** The record for render data that is present: one merged mapping
      whose names are those of both product lists, and the two flags read
      from the render settings. */
  function Assemble(job: Job, data: RenderData, sceneFrameStep: int): (r: Record)
    requires sceneFrameStep >= 1
    ensures |r.expectedFiles| == 1
    ensures r.expectedFiles[0].Keys == Names(data.renderProduct) + Names(data.aovFileProduct)
    ensures r.multipartExr <==> data.imageFormat == "exr" && data.multilayerExr
    ensures r.review <==> data.review == Some(true)
  {
    var beauty := ExpectedFileMap(data.renderProduct, job.frameStartHandle, job.frameEndHandle,
                                  sceneFrameStep, data.imageFormat);
    var aovs := ExpectedFileMap(data.aovFileProduct, job.frameStartHandle, job.frameEndHandle,
                                sceneFrameStep, data.imageFormat);
    Record(
      families := ["render", "render.farm"],
      fps := job.fps,
      byFrameStep := job.creatorStep.GetOr(1),
      review := data.review.GetOr(false),
      multipartExr := data.imageFormat == "exr" && data.multilayerExr,
      farm := true,
      expectedFiles := [Merge(beauty, aovs)],
      colorspaceConfig := "",
      colorspaceDisplay := "sRGB",
      colorspaceView := "ACES 1.0 SDR-video",
      renderProducts := RenderProducts(job.frameStartHandle, job.frameEndHandle))
  }

  /** `process`: no record without render data; otherwise the record, whose
      flags and defaults follow the render settings and whose expected
      files are one merged mapping. */
  function Process(job: Job, sceneFrameStep: int): (r: Result<Record, CollectError>)
    requires sceneFrameStep >= 1
    ensures r.Err? <==> job.renderData.None?
    ensures r.Err? ==> r.error == MissingRenderData
    ensures r.Ok? ==>
      var data, rec := job.renderData.value, r.value;
      && rec.families == ["render", "render.farm"]
      && rec.farm
      && rec.fps == job.fps
      && (rec.multipartExr <==> data.imageFormat == "exr" && data.multilayerExr)
      && (rec.review <==> data.review == Some(true))
      && rec.byFrameStep == (if job.creatorStep.Some? then job.creatorStep.value else 1)
      && rec.colorspaceConfig == "" && rec.colorspaceDisplay == "sRGB"
      && rec.colorspaceView == "ACES 1.0 SDR-video"
      && rec.renderProducts == RenderProducts(job.frameStartHandle, job.frameEndHandle)
      && |rec.expectedFiles| == 1
  {
    match job.renderData
    case None => Err(MissingRenderData)
    case Some(data) => Ok(Assemble(job, data, sceneFrameStep))
  }

  /** The single expected-files mapping of a successful `process`: its
      keys are the beauty and AOV product names; an AOV name maps to the
      AOV call's shared list (AOV wins), a name only the beauty list has
      maps to the beauty call's shared list; each list has one path per
      product of its side and per frame. */
  lemma ProcessExpectedFiles(job: Job, sceneFrameStep: int)
    requires sceneFrameStep >= 1 && job.renderData.Some?
    ensures var data := job.renderData.value;
      var frames := Frames(job.frameStartHandle, job.frameEndHandle, sceneFrameStep);
      var count := FrameCount(job.frameStartHandle, job.frameEndHandle, sceneFrameStep);
      var merged := Process(job, sceneFrameStep).value.expectedFiles[0];
      && merged.Keys == Names(data.renderProduct) + Names(data.aovFileProduct)
      && (forall n :: n in Names(data.aovFileProduct) ==>
            merged[n] == SharedPaths(data.aovFileProduct, frames, data.imageFormat)
            && |merged[n]| == |data.aovFileProduct| * count)
      && (forall n :: n in Names(data.renderProduct) && n !in Names(data.aovFileProduct) ==>
            merged[n] == SharedPaths(data.renderProduct, frames, data.imageFormat)
            && |merged[n]| == |data.renderProduct| * count)
  {
    var data := job.renderData.value;
    var start, end := job.frameStartHandle, job.frameEndHandle;
    ExpectedFilesShape(data.renderProduct, start, end, sceneFrameStep, data.imageFormat);
    ExpectedFilesShape(data.aovFileProduct, start, end, sceneFrameStep, data.imageFormat);
  }
}
