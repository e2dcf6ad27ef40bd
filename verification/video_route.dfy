/** `POST /api/video`: the session gate, the required-field check, and the
    record the route builds from the body (trimmed text, `controls` defaulting
    to true, transformation defaults 1920/1080/80).

    The session, the connection and the parsed body are inputs: `signedIn` is
    whether `getServerSession` found a session, `connected` is false when
    `connectToDatabase()` throws, `body` is `None` when `request.json()`
    throws. Numbers are integers; a number is falsy when it is 0. */
module VideoRoute {
  import opened Outcomes
  import opened Text
  import opened Http

  datatype Transformation = Transformation(height: int, width: int, quality: int)

  /** `body.transformation`, each field possibly absent. */
  datatype TransformationInput = TransformationInput(height: Option<int>, width: Option<int>, quality: Option<int>)

  /** The JSON body of the request (`IVideo`, every field possibly absent). */
  datatype VideoInput = VideoInput(
    title: Option<string>, description: Option<string>,
    videoUrl: Option<string>, thumbnailUrl: Option<string>,
    controls: Option<bool>, transformation: Option<TransformationInput>)

  /** `videoData`, the document the route passes to `Video.create`. */
  datatype VideoData = VideoData(
    title: string, description: string, videoUrl: string, thumbnailUrl: string,
    controls: bool, transformation: Transformation)

  /** A stored video: the data and the `_id` the store gives it. */
  datatype Video = Video(id: nat, data: VideoData)

  const DefaultHeight: int := 1920
  const DefaultWidth: int := 1080
  const DefaultQuality: int := 80

  /** `value || fallback` for a number: the fallback replaces an absent value
      and also an explicit 0. */
  function NumberOr(value: Option<int>, fallback: int): (n: int)
    ensures value.Some? && value.value != 0 ==> n == value.value
    ensures value.None? || value.value == 0 ==> n == fallback
  {
    if value.None? || value.value == 0 then fallback else value.value
  }

  /** The required-field check, then the construction of `videoData`. The
      check looks at the untrimmed strings. */
  function PrepareVideo(body: VideoInput): (r: Option<VideoData>)
    ensures r.Some? <==> !IsFalsy(body.title) && !IsFalsy(body.description)
                         && !IsFalsy(body.videoUrl) && !IsFalsy(body.thumbnailUrl)
    ensures r.Some? ==>
      && r.value.title == Trim(body.title.value)
      && r.value.description == Trim(body.description.value)
      && r.value.videoUrl == body.videoUrl.value
      && r.value.thumbnailUrl == body.thumbnailUrl.value
      && r.value.controls == (body.controls != Some(false))
  {
    if IsFalsy(body.title) || IsFalsy(body.description) || IsFalsy(body.videoUrl) || IsFalsy(body.thumbnailUrl) then
      None
    else
      var t := body.transformation;
      Some(VideoData(
        Trim(body.title.value), Trim(body.description.value),
        body.videoUrl.value, body.thumbnailUrl.value,
        body.controls.GetOr(true),
        Transformation(
          NumberOr(if t.Some? then t.value.height else None, DefaultHeight),
          NumberOr(if t.Some? then t.value.width else None, DefaultWidth),
          NumberOr(if t.Some? then t.value.quality else None, DefaultQuality))))
  }

  /** A transformation value that is absent or 0 is replaced by its default;
      any other value, negative ones included, is kept. */
  lemma TransformationDefaults(body: VideoInput, t: TransformationInput)
    requires PrepareVideo(body).Some? && body.transformation == Some(t)
    ensures var tr := PrepareVideo(body).value.transformation;
      && tr.height == (if t.height.None? || t.height.value == 0 then DefaultHeight else t.height.value)
      && tr.width == (if t.width.None? || t.width.value == 0 then DefaultWidth else t.width.value)
      && tr.quality == (if t.quality.None? || t.quality.value == 0 then DefaultQuality else t.quality.value)
  {
  }

  /** A body with no `transformation` gets 1920 x 1080 at quality 80. */
  lemma NoTransformationGetsDefaults(body: VideoInput)
    requires PrepareVideo(body).Some? && body.transformation.None?
    ensures PrepareVideo(body).value.transformation == Transformation(1920, 1080, 80)
  {
  }

  /** The check runs before trimming: a title made only of whitespace passes
      it and is stored as the empty string. */
  lemma BlankTitleStoredEmpty(body: VideoInput)
    requires body.title.Some? && body.title.value != "" && AllSpace(body.title.value)
    requires !IsFalsy(body.description) && !IsFalsy(body.videoUrl) && !IsFalsy(body.thumbnailUrl)
    ensures PrepareVideo(body).Some? && PrepareVideo(body).value.title == ""
  {
    TrimRemovesOnlySpace(body.title.value);
  }

  /** The `videos` collection. */
  class VideoCollection {
    var videos: seq<Video>
    var nextId: nat

    constructor ()
      ensures videos == [] && nextId == 0
    {
      videos := [];
      nextId := 0;
    }

    /** `Video.create(data)`: insert one document with a fresh `_id`. */
    method Create(data: VideoData) returns (v: Video)
      modifies this
      ensures v == Video(old(nextId), data)
      ensures videos == old(videos) + [v] && nextId == old(nextId) + 1
    {
      v := Video(nextId, data);
      videos := videos + [v];
      nextId := nextId + 1;
    }
  }

  const Failed: Reply<Video> := Reply(500, ErrorMessage("Failed to create video"))

  /** The route handler: 401 without a session, 500 when the connection or the
      body fails, 400 when a required field is falsy, otherwise one insert and
      201 with the new document. */
  method Post(videos: VideoCollection, signedIn: bool, connected: bool, body: Option<VideoInput>)
    returns (reply: Reply<Video>)
    modifies videos
    ensures !signedIn ==> reply == Reply(401, ErrorMessage("Unauthorized")) && unchanged(videos)
    ensures signedIn && (!connected || body.None?) ==> reply == Failed && unchanged(videos)
    ensures signedIn && connected && body.Some? && PrepareVideo(body.value).None? ==>
              reply == Reply(400, ErrorMessage("Missing required fields")) && unchanged(videos)
    ensures signedIn && connected && body.Some? && PrepareVideo(body.value).Some? ==>
              var v := Video(old(videos.nextId), PrepareVideo(body.value).value);
              reply == Reply(201, Json(v)) && videos.videos == old(videos.videos) + [v]
  {
    if !signedIn {
      return Reply(401, ErrorMessage("Unauthorized"));
    }
    if !connected || body.None? {
      return Failed;
    }
    var videoData := PrepareVideo(body.value);
    if videoData.None? {
      return Reply(400, ErrorMessage("Missing required fields"));
    }
    var created := videos.Create(videoData.value);
    reply := Reply(201, Json(created));
  }
}
