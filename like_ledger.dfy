/** The like service: a realtime-database tree likes/{postId}/{userId} = true,
    read back as a list of liker entries plus a flag for the current viewer. */
module LikeLedger {

  /** A string the database client accepts as one path segment: it is
      non-empty (an empty segment is dropped, so the path would name the
      parent node) and holds none of '/' (which would name a deeper node)
      or '.', '#', '$', '[', ']' (which the client refuses). */
  predicate IsKey(s: string) {
    |s| > 0 && forall i | 0 <= i < |s| :: s[i] !in {'/', '.', '#', '$', '[', ']'}
  }

  type Key = s: string | IsKey(s) witness "k"

  /** Both ids go into database paths: likes/{postId}/{userId}. */
  type PostId = Key
  type UserId = Key

  /** The children of likes/{postId}: one key per user who liked the post. */
  type Record = map<UserId, bool>

  /** The whole likes/ subtree. */
  type Store = map<PostId, Record>

  /** One element of the list getLikes returns: {_id: userId}. Spreading the
      stored value `true` into the object adds no further properties. */
  datatype LikeEntry = LikeEntry(id: UserId)

  /** The result of getLikes: {status, list}. */
  datatype LikeView = LikeView(status: bool, list: seq<LikeEntry>)

  /** The record stored under postId, reading an absent node as empty. */
  function RecordOf(store: Store, postId: PostId): Record {
    if postId in store then store[postId] else map[]
  }

  /** The shape the database keeps: a node with no children does not exist,
      and the only value ever written under a post is `true`. */
  ghost predicate WellFormed(store: Store) {
    forall p | p in store :: store[p] != map[] && forall u | u in store[p] :: store[p][u]
  }

  /** `list` has exactly one entry per key of `rec`, in some order. */
  ghost predicate ListsRecord(list: seq<LikeEntry>, rec: Record) {
    && (forall u :: AnyEntryFor(list, u) <==> u in rec)
    && (forall i, j | 0 <= i < j < |list| :: list[i].id != list[j].id)
  }

  /** list.some(x => x._id === currentId) */
  predicate AnyEntryFor(list: seq<LikeEntry>, currentId: UserId) {
    exists i | 0 <= i < |list| :: list[i].id == currentId
  }

  lemma AnyEntryForCons(e: LikeEntry, tail: seq<LikeEntry>, u: UserId)
    ensures AnyEntryFor([e] + tail, u) <==> e.id == u || AnyEntryFor(tail, u)
  {
    var list := [e] + tail;
    assert list[0] == e;
    if AnyEntryFor(tail, u) {
      var i :| 0 <= i < |tail| && tail[i].id == u;
      assert list[i + 1] == tail[i];
    }
    if AnyEntryFor(list, u) && e.id != u {
      var i :| 0 <= i < |list| && list[i].id == u;
      assert tail[i - 1] == list[i];
    }
  }

  /** Putting one more key in front of a listing of the other keys lists them all. */
  lemma ListsRecordCons(u: UserId, rec: Record, tail: seq<LikeEntry>)
    requires u in rec
    requires ListsRecord(tail, rec - {u})
    ensures ListsRecord([LikeEntry(u)] + tail, rec)
  {
    var list := [LikeEntry(u)] + tail;
    forall v ensures AnyEntryFor(list, v) <==> v in rec {
      AnyEntryForCons(LikeEntry(u), tail, v);
    }
    forall i, j | 0 <= i < j < |list| ensures list[i].id != list[j].id {
      if i == 0 {
        assert list[j] == tail[j - 1];
        assert AnyEntryFor(tail, list[j].id);
      } else {
        assert list[i] == tail[i - 1] && list[j] == tail[j - 1];
      }
    }
  }

  /** Object.entries(rec).map(([id, like]) => ({_id: id, ...like})): the
      order is whatever the database hands back, so it is left unspecified. */
  ghost function Entries(rec: Record): (list: seq<LikeEntry>)
    ensures ListsRecord(list, rec)
    ensures |list| == |rec.Keys|
    decreases rec.Keys
  {
    if rec == map[] then []
    else
      var u :| u in rec;
      var rest := rec - {u};
      assert rest.Keys == rec.Keys - {u};
      var tail := Entries(rest);
      ListsRecordCons(u, rec, tail);
      [LikeEntry(u)] + tail
  }

  /** getLikes(currentId, postId), applied to the current store contents. */
  ghost function GetLikes(store: Store, currentId: UserId, postId: PostId): (v: LikeView)
    ensures postId !in store ==> v == LikeView(false, [])
    ensures ListsRecord(v.list, RecordOf(store, postId))
    ensures v.status <==> currentId in RecordOf(store, postId)
  {
    if postId in store then
      var list := Entries(store[postId]);
      LikeView(AnyEntryFor(list, currentId), list)
    else
      LikeView(false, [])
  }

  /** The store after update(ref(db, `likes/${postId}`), {[currentId]: true}):
      a merge that writes one child and keeps its siblings. */
  function AfterLike(store: Store, currentId: UserId, postId: PostId): (s: Store)
    ensures s.Keys == store.Keys + {postId}
    ensures currentId in s[postId] && s[postId][currentId]
    ensures forall u | u != currentId ::
      (u in s[postId] <==> u in RecordOf(store, postId))
      && (u in s[postId] ==> s[postId][u] == RecordOf(store, postId)[u])
    ensures forall p | p in store && p != postId :: s[p] == store[p]
    ensures WellFormed(store) ==> WellFormed(s)
  {
    store[postId := RecordOf(store, postId)[currentId := true]]
  }

  /** The store after remove(ref(db, `likes/${postId}/${currentId}`)): the one
      child goes, and a post left without children disappears with it.
      Removing a child that is not there changes nothing. */
  function AfterDislike(store: Store, currentId: UserId, postId: PostId): (s: Store)
    ensures RecordOf(s, postId) == RecordOf(store, postId) - {currentId}
    ensures forall p | p != postId :: RecordOf(s, p) == RecordOf(store, p)
    ensures s.Keys <= store.Keys
    ensures WellFormed(store) ==> WellFormed(s)
  {
    if postId !in store then store
    else
      var rest := store[postId] - {currentId};
      if rest == map[] then store - {postId} else store[postId := rest]
  }

  /** The database client: the likes/ subtree, changed in place by like and
      dislike. */
  class LikeService {
    var likes: Store

    ghost predicate Valid()
      reads this
    {
      WellFormed(likes)
    }

    /** A handle on the database, whose likes/ tree holds `init`. */
    constructor (init: Store)
      requires WellFormed(init)
      ensures Valid() && likes == init
    {
      likes := init;
    }

    /** like(currentId, postId) */
    method Like(currentId: UserId, postId: PostId)
      requires Valid()
      modifies this
      ensures Valid()
      ensures likes == AfterLike(old(likes), currentId, postId)
    {
      var rec := if postId in likes then likes[postId] else map[];
      likes := likes[postId := rec[currentId := true]];
      assert likes == AfterLike(old(likes), currentId, postId);
    }

    /** dislike(currentId, postId) */
    method Dislike(currentId: UserId, postId: PostId)
      requires Valid()
      modifies this
      ensures Valid()
      ensures likes == AfterDislike(old(likes), currentId, postId)
    {
      if postId in likes {
        var rest := likes[postId] - {currentId};
        if rest == map[] {
          likes := likes - {postId};
        } else {
          likes := likes[postId := rest];
        }
      }
      assert likes == AfterDislike(old(likes), currentId, postId);
    }
  }

  /** After a like, the liker's own view reports the like and lists them. */
  lemma LikeShowsInView(store: Store, currentId: UserId, postId: PostId)
    ensures GetLikes(AfterLike(store, currentId, postId), currentId, postId).status
    ensures AnyEntryFor(GetLikes(AfterLike(store, currentId, postId), currentId, postId).list, currentId)
  {
  }

  /** Liking twice leaves the same store as liking once. */
  lemma LikeIdempotent(store: Store, currentId: UserId, postId: PostId)
    ensures AfterLike(AfterLike(store, currentId, postId), currentId, postId)
         == AfterLike(store, currentId, postId)
  {
    var once: Store := AfterLike(store, currentId, postId);
    var rec: Record := once[postId];
    assert rec[currentId := true] == rec;
  }

  /** Disliking twice leaves the same store as disliking once. */
  lemma DislikeIdempotent(store: Store, currentId: UserId, postId: PostId)
    ensures AfterDislike(AfterDislike(store, currentId, postId), currentId, postId)
         == AfterDislike(store, currentId, postId)
  {
    var once := AfterDislike(store, currentId, postId);
    if postId in once {
      assert once[postId] - {currentId} == once[postId];
    }
  }

  /** Disliking a post one has not liked is a no-op on a well-formed store. */
  lemma DislikeAbsentIsNoOp(store: Store, currentId: UserId, postId: PostId)
    requires WellFormed(store)
    requires currentId !in RecordOf(store, postId)
    ensures AfterDislike(store, currentId, postId) == store
  {
    if postId in store {
      assert store[postId] - {currentId} == store[postId];
    }
  }

  /** A like followed by a dislike clears the viewer's status and entry. */
  lemma LikeThenDislikeClears(store: Store, currentId: UserId, postId: PostId)
    ensures !GetLikes(AfterDislike(AfterLike(store, currentId, postId), currentId, postId), currentId, postId).status
    ensures !AnyEntryFor(GetLikes(AfterDislike(AfterLike(store, currentId, postId), currentId, postId), currentId, postId).list, currentId)
  {
  }

  /** A like followed by a dislike restores a well-formed store in which the
      viewer had not liked the post. */
  lemma LikeThenDislikeRestores(store: Store, currentId: UserId, postId: PostId)
    requires WellFormed(store)
    requires currentId !in RecordOf(store, postId)
    ensures AfterDislike(AfterLike(store, currentId, postId), currentId, postId) == store
  {
    var liked := AfterLike(store, currentId, postId);
    assert liked[postId] - {currentId} == RecordOf(store, postId);
    if postId in store {
      assert liked[postId := store[postId]] == store;
    } else {
      assert liked - {postId} == store;
    }
  }

  /** Neither operation changes what anyone sees on another post, nor what
      another viewer's status is on the same post. */
  lemma OtherViewsUnchanged(store: Store, currentId: UserId, postId: PostId, viewer: UserId, post: PostId)
    requires post != postId
    ensures GetLikes(AfterLike(store, currentId, postId), viewer, post) == GetLikes(store, viewer, post)
    ensures GetLikes(AfterDislike(store, currentId, postId), viewer, post) == GetLikes(store, viewer, post)
    ensures viewer != currentId ==>
      GetLikes(AfterLike(store, currentId, postId), viewer, postId).status == GetLikes(store, viewer, postId).status
    ensures viewer != currentId ==>
      GetLikes(AfterDislike(store, currentId, postId), viewer, postId).status == GetLikes(store, viewer, postId).status
  {
  }
}
