/** The moments list and its counters, in any reachable database. */
module Moments {
  import opened Results
  import opened Ordering
  import opened Leases
  import opened Tables
  import opened Pipeline
  import opened Runs
  import opened Guarantees
  import opened Postcards
  import opened Counting
  import Pagination
  import Cursor

  datatype Filter = ALL | HIDDEN | Of(status: PhotoStatus)

  /** What both queries have in common: the user, and the day to leave out. */
  datatype Viewer = Viewer(user: UserId, excludedDate: Option<int>)

  /** photo LEFT JOIN participant ON photo_id and user_id */
  predicate TakesPart(db: Db, v: Viewer, p: PhotoId) {
    p in db.participants && db.participants[p].user == v.user
  }

  /** LEFT JOIN partner: the participants of the same match who are another user. */
  function Partners(db: Db, v: Viewer, p: PhotoId): set<PhotoId> {
    set q | q in db.participants && TakesPart(db, v, p)
            && db.participants[q].matchId == db.participants[p].matchId && db.participants[q].user != v.user
  }

  /** A joined row, as far as it is not determined by its photo. */
  datatype Row = Row(photo: PhotoId, partner: Option<PhotoId>)

  /** A left join keeps a row without a partner. */
  function Joined(db: Db, v: Viewer, p: PhotoId): set<Row> {
    if Partners(db, v, p) == {} then {Row(p, None)} else set q | q in Partners(db, v, p) :: Row(p, Some(q))
  }

  predicate Mine(db: Db, v: Viewer, p: PhotoId)
    requires p in db.photos
  {
    var photo := db.photos[p];
    && photo.user == v.user && photo.deletedAt.None?
    && (v.excludedDate.Some? ==> photo.registeredDate != v.excludedDate.value)
  }

  predicate Hidden(db: Db, v: Viewer, p: PhotoId) {
    TakesPart(db, v, p) && db.participants[p].hiddenAt.Some?
  }

  predicate Admits(db: Db, v: Viewer, f: Filter, p: PhotoId)
    requires p in db.photos
  {
    match f
    case HIDDEN => Hidden(db, v, p)
    case ALL => !Hidden(db, v, p)
    case Of(s) => db.photos[p].status == s && !Hidden(db, v, p)
  }

  function Selected(db: Db, v: Viewer, f: Filter): set<PhotoId> {
    set p | p in db.photos && Mine(db, v, p) && Admits(db, v, f, p)
  }

  /** The rows of the `list_moments` query before ORDER BY and LIMIT. */
  function MomentRows(db: Db, v: Viewer, f: Filter): set<Row> {
    set p, r | p in Selected(db, v, f) && r in Joined(db, v, p) :: r
  }

  /** Their sort keys. */
  function MomentKeys(db: Db, v: Viewer, f: Filter): set<Key> {
    set r | r in MomentRows(db, v, f) && r.photo in db.photos :: PhotoKey(db, r.photo)
  }

  /** `count_moments` for one status: it joins the participants only. */
  function CountMoments(db: Db, v: Viewer, s: PhotoStatus): nat {
    |set p | p in db.photos && Mine(db, v, p) && !Hidden(db, v, p) && db.photos[p].status == s|
  }

  // The joins keep one row per photo.

  lemma OneJoinedRow(db: Db, v: Viewer, p: PhotoId)
    requires Consistent(db) && Paired(db) && p in db.photos
    ensures |Partners(db, v, p)| <= 1 && |Joined(db, v, p)| == 1
    ensures TakesPart(db, v, p) <==> Partners(db, v, p) != {}
  {
    if TakesPart(db, v, p) {
      var m := db.participants[p].matchId;
      var a, b := MatchPair(db, m);
      assert p in MatchRows(db, m);
      var q := if p == a then b else a;
      assert q in MatchRows(db, m);
      forall x ensures x in Partners(db, v, p) <==> x == q {
        if x in Partners(db, v, p) { assert x in MatchRows(db, m); }
      }
      assert Partners(db, v, p) == {q};
      assert Joined(db, v, p) == {Row(p, Some(q))};
    }
  }

  lemma RowFound(db: Db, v: Viewer, f: Filter, p: PhotoId) returns (r: Row)
    requires Consistent(db) && Paired(db) && p in Selected(db, v, f)
    ensures r in MomentRows(db, v, f) && r.photo == p
  {
    OneJoinedRow(db, v, p);
    r :| r in Joined(db, v, p);
    assert r in MomentRows(db, v, f);
  }

  lemma RowUnique(db: Db, v: Viewer, f: Filter, r: Row, s: Row)
    requires Consistent(db) && Paired(db)
    requires r in MomentRows(db, v, f) && s in MomentRows(db, v, f) && r.photo == s.photo
    ensures r == s && r.photo in Selected(db, v, f)
  {
    OneJoinedRow(db, v, r.photo);
    assert r in Joined(db, v, r.photo) && s in Joined(db, v, r.photo);
    assert r != s ==> |{r, s}| == 2;
    SubsetCount({r, s}, Joined(db, v, r.photo));
  }

  lemma CountByPhoto(rows: set<Row>, photos: set<PhotoId>)
    requires forall r :: r in rows ==> r.photo in photos
    requires forall r, s :: r in rows && s in rows && r.photo == s.photo ==> r == s
    requires forall p :: p in photos ==> exists r :: r in rows && r.photo == p
    ensures |rows| == |photos|
  {
    var photoOf := map r | r in rows :: r.photo;
    forall p | p in photos ensures exists r :: r in rows && photoOf[r] == p {
      var r :| r in rows && r.photo == p;
      assert photoOf[r] == p;
    }
    SameCount(rows, photos, photoOf);
  }

  lemma CountByKey(db: Db, photos: set<PhotoId>)
    requires photos <= db.photos.Keys
    ensures |set p | p in photos :: PhotoKey(db, p)| == |photos|
  {
    var keys := set p | p in photos :: PhotoKey(db, p);
    var keyOf := map p | p in photos :: PhotoKey(db, p);
    forall k | k in keys ensures exists p :: p in photos && keyOf[p] == k {
      var p :| p in photos && PhotoKey(db, p) == k;
      assert keyOf[p] == k;
    }
    SameCount(photos, keys, keyOf);
  }

  /** In every reachable state the three outer joins neither duplicate nor lose a photo: the rows are
      the selected photos, each once. */
  lemma RowsArePhotos(db: Db, v: Viewer, f: Filter)
    requires Consistent(db) && Paired(db)
    ensures |MomentRows(db, v, f)| == |Selected(db, v, f)|
  {
    var rows, photos := MomentRows(db, v, f), Selected(db, v, f);
    forall p | p in photos ensures exists r :: r in rows && r.photo == p {
      var r := RowFound(db, v, f, p);
    }
    forall r, s | r in rows && s in rows && r.photo == s.photo ensures r == s && r.photo in photos {
      RowUnique(db, v, f, r, s);
    }
    CountByPhoto(rows, photos);
  }

  /** And no two of them share their place in the order. */
  lemma KeysAreRows(db: Db, v: Viewer, f: Filter)
    requires Consistent(db) && Paired(db)
    ensures |MomentKeys(db, v, f)| == |Selected(db, v, f)|
  {
    var photos, keys := Selected(db, v, f), MomentKeys(db, v, f);
    forall p | p in photos ensures PhotoKey(db, p) in keys {
      var r := RowFound(db, v, f, p);
    }
    forall k | k in keys ensures exists p :: p in photos && PhotoKey(db, p) == k {
      var r :| r in MomentRows(db, v, f) && r.photo in db.photos && PhotoKey(db, r.photo) == k;
      RowUnique(db, v, f, r, r);
    }
    assert keys == set p | p in photos :: PhotoKey(db, p);
    CountByKey(db, photos);
  }

  /** The items over all pages of the list, for a status, are as many as the counter says. */
  lemma PagesMatchCounts(c: Config, steps: seq<Step>, v: Viewer, s: PhotoStatus, format: Cursor.Format, requests: nat,
                         size: nat)
    requires Run(c, steps).Some? && Cursor.Lossless(format) && size >= 1
    requires requests > CountMoments(Run(c, steps).value.db, v, s) / size
    ensures PagesCount(Run(c, steps).value.db, v, s, format, requests, size)
  {
    RunInv(c, steps);
    PagesOfTable(Run(c, steps).value.db, v, s, format, requests, size);
  }

  /** A traversal with this many requests ends, and its items number what the counter reports. */
  ghost predicate PagesCount(db: Db, v: Viewer, s: PhotoStatus, format: Cursor.Format, requests: nat, size: nat) {
    var keys := MomentKeys(db, v, Of(s));
    var pages := Pagination.Pages(Pagination.Follow(format, Pagination.Unchanging(keys, requests), size, None));
    Pagination.Finished(pages) && |Pagination.Items(pages)| == CountMoments(db, v, s)
  }

  lemma PagesOfTable(db: Db, v: Viewer, s: PhotoStatus, format: Cursor.Format, requests: nat, size: nat)
    requires Consistent(db) && Paired(db) && Cursor.Lossless(format) && size >= 1
    requires requests > CountMoments(db, v, s) / size
    ensures PagesCount(db, v, s, format, requests, size)
  {
    KeysAreRows(db, v, Of(s));
    assert Selected(db, v, Of(s))
           == set p | p in db.photos && Mine(db, v, p) && !Hidden(db, v, p) && db.photos[p].status == s;
    Pagination.FixedTable(format, MomentKeys(db, v, Of(s)), requests, size);
  }

  // The rows themselves.

  /** The permission of a row, where `list_moments` computes one. */
  function RowPermission(db: Db, v: Viewer, r: Row): Option<Permission>
    requires r.photo in db.photos
    requires (r.partner.Some? ==> r.partner.value in db.photos && r.partner.value in db.participants)
    requires r.photo in db.participants ==> r.partner.Some?
  {
    if db.photos[r.photo].status.Matched? && r.photo in db.participants
    then Some(PermissionFor(db, v.user, db.participants[r.photo].matchId, r.photo, r.partner.value))
    else None
  }

  /** Every row of a matched photo has its partner, so the comparison of the two photos always has both
      sides, and the permission is the one the match page shows. */
  lemma RowsShowTheMatch(db: Db, v: Viewer, f: Filter, r: Row)
    requires Consistent(db) && Paired(db) && r in MomentRows(db, v, f)
    ensures r.photo in db.photos
    ensures (r.partner.Some? ==> r.partner.value in db.photos && r.partner.value in db.participants)
    ensures r.photo in db.participants <==> db.photos[r.photo].status.Matched?
    ensures r.partner.Some? <==> db.photos[r.photo].status.Matched?
    ensures db.photos[r.photo].status.Matched? ==>
      GetMatchDetail(db, v.user, db.participants[r.photo].matchId) == Ok(RowPermission(db, v, r))
    ensures !db.photos[r.photo].status.Matched? ==> RowPermission(db, v, r).None?
  {
    JoinedPhotos(db, v, f, r);
    if r.photo in db.participants {
      DetailOfRow(db, v, r, db.participants[r.photo].matchId);
    }
  }

  /** A row joins the two rows of a match, or has no partner. */
  lemma JoinedPhotos(db: Db, v: Viewer, f: Filter, r: Row)
    requires Consistent(db) && Paired(db) && r in MomentRows(db, v, f)
    ensures r.photo in db.photos && (r.photo in db.participants <==> db.photos[r.photo].status.Matched?)
    ensures r.partner.Some? <==> r.photo in db.participants
    ensures r.photo in db.participants ==>
      && db.participants[r.photo].user == v.user && r.partner.value in db.participants && r.partner.value in db.photos
      && db.participants[r.partner.value].matchId == db.participants[r.photo].matchId
      && db.participants[r.partner.value].user != v.user
  {
    assert Agree(db, r.photo);
    OneJoinedRow(db, v, r.photo);
  }

  lemma DetailOfRow(db: Db, v: Viewer, r: Row, m: MatchId)
    requires Consistent(db) && Paired(db) && r.photo in db.participants && r.partner.Some?
    requires r.partner.value in db.participants
    requires r.photo in db.photos && r.partner.value in db.photos
    requires db.participants[r.photo].matchId == m == db.participants[r.partner.value].matchId
    requires db.participants[r.photo].user == v.user && db.participants[r.partner.value].user != v.user
    ensures GetMatchDetail(db, v.user, m) == Ok(Some(PermissionFor(db, v.user, m, r.photo, r.partner.value)))
  {
    var a, b := MatchPair(db, m);
    assert r.photo in MatchRows(db, m) && r.partner.value in MatchRows(db, m);
    OneDetailRow(db, v.user, m, a, b);
  }

  /** The viewer's photos that are not deleted. */
  function Kept(db: Db, v: Viewer): set<PhotoId> {
    set p | p in db.photos && Mine(db, v, p)
  }

  /** In every reachable state the lists ALL and HIDDEN share out the viewer's photos: no row is in both,
      together they have exactly one row per photo that is not deleted, and only matches are hidden. */
  lemma AllOrHidden(c: Config, steps: seq<Step>, v: Viewer)
    requires Run(c, steps).Some?
    ensures var db := Run(c, steps).value.db;
      && MomentRows(db, v, ALL) !! MomentRows(db, v, HIDDEN)
      && |MomentRows(db, v, ALL)| + |MomentRows(db, v, HIDDEN)| == |Kept(db, v)|
      && (forall r :: r in MomentRows(db, v, HIDDEN) ==> r.photo in db.photos && db.photos[r.photo].status.Matched?)
  {
    RunInv(c, steps);
    RowsSharedOut(Run(c, steps).value.db, v);
  }

  lemma RowsSharedOut(db: Db, v: Viewer)
    requires Consistent(db) && Paired(db)
    ensures MomentRows(db, v, ALL) !! MomentRows(db, v, HIDDEN)
    ensures |MomentRows(db, v, ALL)| + |MomentRows(db, v, HIDDEN)| == |Kept(db, v)|
    ensures forall r :: r in MomentRows(db, v, HIDDEN) ==> r.photo in db.photos && db.photos[r.photo].status.Matched?
  {
    RowsArePhotos(db, v, ALL);
    RowsArePhotos(db, v, HIDDEN);
    assert Selected(db, v, ALL) + Selected(db, v, HIDDEN) == Kept(db, v);
    forall r | r in MomentRows(db, v, HIDDEN)
      ensures r.photo in db.photos && db.photos[r.photo].status.Matched? && r !in MomentRows(db, v, ALL)
    {
      RowUnique(db, v, HIDDEN, r, r);
      assert Agree(db, r.photo);
      if r in MomentRows(db, v, ALL) { RowUnique(db, v, ALL, r, r); }
    }
  }

  /** Which photos a list shows in every reachable state, by the rows: the viewer's own photos that are not
      DELETED and not of the excluded day; of the status asked for; and those of a match that the viewer has
      hidden in the list HIDDEN only. */
  lemma ListedByFields(db: Db, v: Viewer, f: Filter, p: PhotoId)
    requires Consistent(db) && Paired(db)
    ensures (exists r :: r in MomentRows(db, v, f) && r.photo == p)
            <==> && p in db.photos && db.photos[p].user == v.user && !db.photos[p].status.Deleted?
                 && v.excludedDate != Some(db.photos[p].registeredDate)
                 && var hidden := p in db.participants && db.participants[p].hiddenAt.Some?;
                 match f case HIDDEN => hidden case ALL => !hidden case Of(s) => !hidden && db.photos[p].status == s
  {
    if p in db.photos { assert Agree(db, p); }
    if p in Selected(db, v, f) { var r := RowFound(db, v, f, p); }
    if r :| r in MomentRows(db, v, f) && r.photo == p { RowUnique(db, v, f, r, r); }
  }

  // Hiding a match.

  /** Hiding or showing a match is private: nobody else's list changes. */
  lemma HidingIsPrivate(db: Db, user: UserId, m: MatchId, at: Option<Time>, v: Viewer, f: Filter)
    requires v.user != user
    ensures MomentRows(SetHidden(db, user, m, at), v, f) == MomentRows(db, v, f)
  {
    var db' := SetHidden(db, user, m, at);
    assert Selected(db', v, f) == Selected(db, v, f);
    forall p ensures Joined(db', v, p) == Joined(db, v, p) {
      assert Partners(db', v, p) == Partners(db, v, p);
    }
  }

  /** The user's own photo of the match moves to the list of hidden ones and back, and their other photos
      stay where they are. */
  lemma HidingMovesMine(db: Db, user: UserId, m: MatchId, at: Option<Time>, v: Viewer, p: PhotoId)
    requires v.user == user && p in db.photos && Mine(db, v, p)
    ensures var db' := SetHidden(db, user, m, at);
      && (p in Selected(db', v, HIDDEN)
          <==> if p in MyRows(db, user, m) then at.Some? else p in Selected(db, v, HIDDEN))
      && (p in Selected(db', v, ALL) <==> p !in Selected(db', v, HIDDEN))
  {
    assert p in MyRows(db, user, m) ==> TakesPart(db, v, p);
  }
}
