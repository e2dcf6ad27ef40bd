/** The video grid (app/components/VideoFeed.tsx): its local copy of the
    video list, the removal of a deleted video, the parent notification, and
    the resynchronisation with the incoming list.

    A video is identified by `_id?.toString()`: the id string when the video
    has one, `undefined` otherwise. */
module VideoFeed {
  import opened Outcomes
  import opened VideoRoute

  /** A video as the feed holds it: its id string, if any, and its stored data. */
  datatype FeedVideo = FeedVideo(id: Option<string>, data: VideoData)

  /** The filter's test fails for `v`: its id string is the deleted one. A
      video without an id never matches, since `undefined !== deletedVideoId`. */
  predicate IsDeleted(v: FeedVideo, deletedId: string) {
    v.id == Some(deletedId)
  }

  /** `videos.filter(video => video._id?.toString() !== deletedVideoId)`. */
  function RemoveById(videos: seq<FeedVideo>, deletedId: string): (r: seq<FeedVideo>)
    ensures |r| <= |videos|
    ensures forall i :: 0 <= i < |r| ==> !IsDeleted(r[i], deletedId)
  {
    if videos == [] then []
    else (if IsDeleted(videos[0], deletedId) then [] else [videos[0]]) + RemoveById(videos[1..], deletedId)
  }

  /** The filter works element by element, left to right: filtering a
      concatenation is concatenating the filtered parts, so the videos kept
      keep their order. */
  lemma {:induction false} RemoveByIdDistributes(a: seq<FeedVideo>, b: seq<FeedVideo>, deletedId: string)
    ensures RemoveById(a + b, deletedId) == RemoveById(a, deletedId) + RemoveById(b, deletedId)
  {
    if a == [] {
      assert a + b == b;
    } else {
      assert (a + b)[1..] == a[1..] + b;
      RemoveByIdDistributes(a[1..], b, deletedId);
    }
  }

  /** Exactly the videos with the deleted id go: every other video, including
      one with no id, is kept as many times as it occurs. */
  lemma {:induction false} RemoveByIdKeepsOthers(videos: seq<FeedVideo>, deletedId: string)
    ensures forall v :: !IsDeleted(v, deletedId) ==>
              multiset(RemoveById(videos, deletedId))[v] == multiset(videos)[v]
    ensures forall v :: IsDeleted(v, deletedId) ==> multiset(RemoveById(videos, deletedId))[v] == 0
  {
    if videos != [] {
      RemoveByIdKeepsOthers(videos[1..], deletedId);
      assert videos == [videos[0]] + videos[1..];
    }
  }

  /** Deleting an id no video in the list carries leaves the list as it is. */
  lemma {:induction false} RemoveAbsentId(videos: seq<FeedVideo>, deletedId: string)
    requires forall i :: 0 <= i < |videos| ==> !IsDeleted(videos[i], deletedId)
    ensures RemoveById(videos, deletedId) == videos
  {
    if videos != [] {
      RemoveAbsentId(videos[1..], deletedId);
      assert videos == [videos[0]] + videos[1..];
    }
  }

  /** The component's state. `notified` records every list handed to
      `onVideosChange`, in order. */
  class Feed {
    var videos: seq<FeedVideo>
    /** Whether the parent passed `onVideosChange`. */
    const hasCallback: bool
    var notified: seq<seq<FeedVideo>>

    /** `useState(initialVideos)`. */
    constructor (initialVideos: seq<FeedVideo>, hasCallback: bool)
      ensures videos == initialVideos && this.hasCallback == hasCallback && notified == []
    {
      videos := initialVideos;
      this.hasCallback := hasCallback;
      notified := [];
    }

    /** The effect on `[initialVideos]`: a new incoming list replaces the local
        one, whatever deletions happened before. */
    method SyncFromProps(initialVideos: seq<FeedVideo>)
      modifies this`videos
      ensures videos == initialVideos
    {
      videos := initialVideos;
    }

    /** `handleVideoDeleted`: drop the deleted video from the local list and,
        when a callback was given, pass it the very same list. */
    method HandleVideoDeleted(deletedId: string)
      modifies this`videos, this`notified
      ensures videos == RemoveById(old(videos), deletedId)
      ensures notified == old(notified) + if hasCallback then [videos] else []
    {
      var updatedVideos := RemoveById(videos, deletedId);
      videos := updatedVideos;
      if hasCallback {
        notified := notified + [updatedVideos];
      }
    }
  }

  /** Deleting the same id twice changes nothing the second time: the
      parent hears the same list again. */
  lemma RemoveByIdIdempotent(videos: seq<FeedVideo>, deletedId: string)
    ensures RemoveById(RemoveById(videos, deletedId), deletedId) == RemoveById(videos, deletedId)
  {
    RemoveAbsentId(RemoveById(videos, deletedId), deletedId);
  }
}
