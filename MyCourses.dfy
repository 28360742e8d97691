/**
 * The "My Courses" page groups the joined course/video rows returned by
 * `my-courses-with-videos` into one entry per course, in order of first
 * appearance, each carrying its videos without duplicate video ids; and it
 * keeps the set of expanded courses, toggled by clicking a course.
 *
 * The grouping is specified by reference definitions over the rows
 * (`CourseIds`, `FirstIndex`, `VideosOf`, `Entry`), each built one row at a
 * time; the lemmas below state what they guarantee.
 */
module MyCourses {
  import opened JsValue

  /** One joined row: the course columns and the (possibly null) video columns. */
  datatype Row = Row(courseId: Value, courseName: Value, description: Value, startDate: Value, endDate: Value,
                     fees: Value, videoExpireDays: Value,
                     videoId: Value, title: Value, youtubeUrl: Value, addedAt: Value)

  datatype Video = Video(videoId: Value, title: Value, description: Value, youtubeUrl: Value, addedAt: Value,
                         courseId: Value)

  datatype Course = Course(courseId: Value, courseName: Value, description: Value, startDate: Value, endDate: Value,
                           fees: Value, videoExpireDays: Value, videos: seq<Video>)

  /** The video columns are filled: a title that is neither null nor undefined, and a truthy URL. */
  predicate CarriesVideo(row: Row) {
    row.title != Null && row.title != Undefined && Truthy(row.youtubeUrl)
  }

  /** Some video in `videos` has the id `id` (`videos.some(v => v.video_id === id)`). */
  predicate HasVideo(videos: seq<Video>, id: Value) {
    exists j :: 0 <= j < |videos| && videos[j].videoId == id
  }

  /** A row's video is pushed onto a course that already holds `videos`. */
  predicate Admits(videos: seq<Video>, row: Row) {
    CarriesVideo(row) && !HasVideo(videos, row.videoId) && Truthy(row.videoId)
  }

  /** The video object built from a row; a falsy description becomes null. */
  function VideoOf(row: Row): Video {
    Video(row.videoId, row.title, if Truthy(row.description) then row.description else Null,
          row.youtubeUrl, row.addedAt, row.courseId)
  }

  /** The course object built from the first row of a course, with no videos yet. */
  function HeaderOf(row: Row): Course {
    Course(row.courseId, row.courseName, row.description, row.startDate, row.endDate,
           row.fees, row.videoExpireDays, [])
  }

  /** The distinct course ids of `rows`, in order of first appearance. */
  function CourseIds(rows: seq<Row>): seq<Value> {
    if rows == [] then []
    else
      var ids := CourseIds(rows[..|rows| - 1]);
      var id := rows[|rows| - 1].courseId;
      if id in ids then ids else ids + [id]
  }

  /** The index of the first row with course id `id`. */
  function FirstIndex(rows: seq<Row>, id: Value): (k: nat)
    requires id in CourseIds(rows)
    ensures k < |rows|
  {
    var n := |rows| - 1;
    if id in CourseIds(rows[..n]) then FirstIndex(rows[..n], id) else n
  }

  /** The videos of course `id`: each admissible row's video, skipping ids already present. */
  function VideosOf(rows: seq<Row>, id: Value): (videos: seq<Video>)
    ensures forall j :: 0 <= j < |videos| ==>
      videos[j].courseId == id && Truthy(videos[j].videoId)
      && videos[j].title != Null && videos[j].title != Undefined && Truthy(videos[j].youtubeUrl)
      && (videos[j].description == Null || Truthy(videos[j].description))
  {
    if rows == [] then []
    else
      var videos := VideosOf(rows[..|rows| - 1], id);
      var row := rows[|rows| - 1];
      if row.courseId == id && Admits(videos, row) then videos + [VideoOf(row)] else videos
  }

  /** The indexes of the rows whose video course `id` takes, in row order. */
  function VideoRows(rows: seq<Row>, id: Value): (ks: seq<nat>)
    ensures forall j :: 0 <= j < |ks| ==> ks[j] < |rows|
  {
    if rows == [] then []
    else
      var n := |rows| - 1;
      var ks := VideoRows(rows[..n], id);
      if rows[n].courseId == id && Admits(VideosOf(rows[..n], id), rows[n]) then ks + [n] else ks
  }

  /**
   * Each video of a course is built from a row of that course that was
   * admitted when it was reached, and the videos follow their rows' order.
   */
  lemma {:induction false} VideosFromRows(rows: seq<Row>, id: Value)
    ensures var vs := VideosOf(rows, id);
      var ks := VideoRows(rows, id);
      |ks| == |vs|
      && (forall j :: 0 <= j < |ks| ==>
            rows[ks[j]].courseId == id && Admits(VideosOf(rows[..ks[j]], id), rows[ks[j]])
            && vs[j] == VideoOf(rows[ks[j]]))
      && (forall j, k :: 0 <= j < k < |ks| ==> ks[j] < ks[k])
  {
    if rows != [] {
      var n := |rows| - 1;
      var pre := rows[..n];
      VideosFromRows(pre, id);
      var ks := VideoRows(pre, id);
      forall j | 0 <= j < |ks|
        ensures rows[ks[j]] == pre[ks[j]] && rows[..ks[j]] == pre[..ks[j]]
      {
      }
      assert rows[..n] == pre;
    }
  }

  /** The entry of course `id`: the fields of its first row, with its videos. */
  function Entry(rows: seq<Row>, id: Value): Course
    requires id in CourseIds(rows)
  {
    HeaderOf(rows[FirstIndex(rows, id)]).(videos := VideosOf(rows, id))
  }

  /** A course id that never occurs has no videos. */
  lemma {:induction false} VideosOfAbsent(rows: seq<Row>, id: Value)
    requires id !in CourseIds(rows)
    ensures VideosOf(rows, id) == []
  {
    if rows != [] {
      VideosOfAbsent(rows[..|rows| - 1], id);
    }
  }

  /** How one more row changes the list of course ids. */
  lemma CourseIdsStep(pre: seq<Row>, row: Row)
    ensures CourseIds(pre + [row]) ==
      if row.courseId in CourseIds(pre) then CourseIds(pre) else CourseIds(pre) + [row.courseId]
  {
    assert (pre + [row])[..|pre|] == pre;
  }

  /** How one more row changes the entry of a course. */
  lemma EntryStep(pre: seq<Row>, row: Row, id: Value)
    requires id in CourseIds(pre + [row])
    ensures id in CourseIds(pre) ==>
      var e := Entry(pre, id);
      Entry(pre + [row], id) == if row.courseId == id && Admits(e.videos, row) then e.(videos := e.videos + [VideoOf(row)]) else e
    ensures id !in CourseIds(pre) ==>
      id == row.courseId &&
      Entry(pre + [row], id) == if Admits([], row) then HeaderOf(row).(videos := [VideoOf(row)]) else HeaderOf(row)
  {
    var rows := pre + [row];
    assert rows[..|rows| - 1] == pre;
    if id in CourseIds(pre) {
      assert FirstIndex(rows, id) == FirstIndex(pre, id);
      assert rows[FirstIndex(pre, id)] == pre[FirstIndex(pre, id)];
    } else {
      VideosOfAbsent(pre, id);
    }
  }

  /** The `forEach` callback: files one row into the Map of courses kept in insertion order. */
  method AddRow(courseMap: map<Value, Course>, order: seq<Value>, ghost pre: seq<Row>, row: Row)
    returns (courseMap': map<Value, Course>, order': seq<Value>)
    requires order == CourseIds(pre)
    requires forall id :: id in courseMap <==> id in order
    requires forall id :: id in courseMap ==> courseMap[id] == Entry(pre, id)
    ensures order' == CourseIds(pre + [row])
    ensures forall id :: id in courseMap' <==> id in order'
    ensures forall id :: id in courseMap' ==> courseMap'[id] == Entry(pre + [row], id)
  {
    CourseIdsStep(pre, row);
    courseMap', order' := courseMap, order;
    var courseId := row.courseId;
    if courseId !in courseMap' {
      courseMap' := courseMap'[courseId := HeaderOf(row)];
      order' := order' + [courseId];
    }
    if row.title != Null && row.title != Undefined && Truthy(row.youtubeUrl) {
      var course := courseMap'[courseId];
      var videoExists := HasVideo(course.videos, row.videoId);
      if !videoExists && Truthy(row.videoId) {
        courseMap' := courseMap'[courseId := course.(videos := course.videos + [VideoOf(row)])];
      }
    }
    forall id | id in courseMap' ensures courseMap'[id] == Entry(pre + [row], id) {
      EntryStep(pre, row, id);
    }
  }

  /** `groupCoursesWithVideos(data)`: one entry per course, in order of first appearance. */
  method GroupCoursesWithVideos(rows: seq<Row>) returns (courses: seq<Course>)
    ensures |courses| == |CourseIds(rows)|
    ensures forall i :: 0 <= i < |courses| ==> courses[i] == Entry(rows, CourseIds(rows)[i])
  {
    var courseMap: map<Value, Course> := map[];
    var order: seq<Value> := [];
    for k := 0 to |rows|
      invariant order == CourseIds(rows[..k])
      invariant forall id :: id in courseMap <==> id in order
      invariant forall id :: id in courseMap ==> courseMap[id] == Entry(rows[..k], id)
    {
      assert rows[..k + 1] == rows[..k] + [rows[k]];
      courseMap, order := AddRow(courseMap, order, rows[..k], rows[k]);
    }
    assert rows[..|rows|] == rows;
    courses := seq(|order|, i requires 0 <= i < |order| => courseMap[order[i]]);
  }

  /** No value occurs twice in `ids`. */
  predicate Distinct(ids: seq<Value>) {
    forall i, j :: 0 <= i < j < |ids| ==> ids[i] != ids[j]
  }

  /** Each course id is listed once. */
  lemma {:induction false} CourseIdsDistinct(rows: seq<Row>)
    ensures Distinct(CourseIds(rows))
  {
    if rows != [] {
      var pre := rows[..|rows| - 1];
      CourseIdsDistinct(pre);
      var id := rows[|rows| - 1].courseId;
      var old_ids := CourseIds(pre);
      var ids := CourseIds(rows);
      if id !in old_ids {
        assert ids == old_ids + [id];
        forall i, j | 0 <= i < j < |ids| ensures ids[i] != ids[j] {
          assert ids[i] == old_ids[i] && old_ids[i] in old_ids;
          if j < |old_ids| {
            assert ids[j] == old_ids[j];
          } else {
            assert ids[j] == id;
          }
        }
      }
    }
  }

  /** The listed ids are exactly the ids of the rows, and `FirstIndex` finds the first row of each. */
  lemma {:induction false} FirstIndexIsFirst(rows: seq<Row>, id: Value)
    requires id in CourseIds(rows)
    ensures rows[FirstIndex(rows, id)].courseId == id
    ensures forall i :: 0 <= i < FirstIndex(rows, id) ==> rows[i].courseId != id
  {
    var n := |rows| - 1;
    var pre := rows[..n];
    if id in CourseIds(pre) {
      FirstIndexIsFirst(pre, id);
    } else {
      forall i | 0 <= i < n ensures rows[i].courseId != id {
        RowIdListed(pre, i);
      }
    }
  }

  /** Every row's course id is listed. */
  lemma {:induction false} RowIdListed(rows: seq<Row>, i: nat)
    requires i < |rows|
    ensures rows[i].courseId in CourseIds(rows)
  {
    var n := |rows| - 1;
    if i < n {
      RowIdListed(rows[..n], i);
    }
  }

  /** The listed ids are in order of their first row. */
  lemma {:induction false} FirstAppearanceOrder(rows: seq<Row>)
    ensures var ids := CourseIds(rows);
      forall i, j :: 0 <= i < j < |ids| ==> FirstIndex(rows, ids[i]) < FirstIndex(rows, ids[j])
  {
    if rows != [] {
      var n := |rows| - 1;
      var pre := rows[..n];
      FirstAppearanceOrder(pre);
      var ids := CourseIds(rows);
      forall i, j | 0 <= i < j < |ids| ensures FirstIndex(rows, ids[i]) < FirstIndex(rows, ids[j]) {
        assert ids[i] in CourseIds(pre);
        if j < |CourseIds(pre)| {
          assert ids[j] in CourseIds(pre);
        }
      }
    }
  }

  /** No video id occurs twice in `vs`. */
  predicate DistinctVideos(vs: seq<Video>) {
    forall i, j :: 0 <= i < j < |vs| ==> vs[i].videoId != vs[j].videoId
  }

  /** No two videos of a course share a video id. */
  lemma {:induction false} VideosDistinct(rows: seq<Row>, id: Value)
    ensures DistinctVideos(VideosOf(rows, id))
  {
    if rows != [] {
      var pre := rows[..|rows| - 1];
      VideosDistinct(pre, id);
      var row := rows[|rows| - 1];
      var videos := VideosOf(pre, id);
      var vs := VideosOf(rows, id);
      if row.courseId == id && Admits(videos, row) {
        assert vs == videos + [VideoOf(row)];
        forall i, j | 0 <= i < j < |vs| ensures vs[i].videoId != vs[j].videoId {
          assert vs[i] == videos[i];
          if j < |videos| {
            assert vs[j] == videos[j];
          }
        }
      }
    }
  }

  /** Every row of the course that carries a truthy video id has that id among the course's videos. */
  lemma {:induction false} VideosComplete(rows: seq<Row>, id: Value, i: nat)
    requires i < |rows| && rows[i].courseId == id && CarriesVideo(rows[i]) && Truthy(rows[i].videoId)
    ensures HasVideo(VideosOf(rows, id), rows[i].videoId)
  {
    var n := |rows| - 1;
    var pre := rows[..n];
    var videos := VideosOf(pre, id);
    if i < n {
      VideosComplete(pre, id, i);
      var j :| 0 <= j < |videos| && videos[j].videoId == rows[i].videoId;
      assert VideosOf(rows, id)[j] == videos[j];
    } else if !Admits(videos, rows[i]) {
      assert HasVideo(videos, rows[i].videoId);
      var j :| 0 <= j < |videos| && videos[j].videoId == rows[i].videoId;
      assert VideosOf(rows, id)[j] == videos[j];
    } else {
      assert VideosOf(rows, id)[|videos|].videoId == rows[i].videoId;
    }
  }

  /** Later rows only append: the videos of a prefix of the rows are a prefix of the videos. */
  lemma {:induction false} VideosInRowOrder(rows: seq<Row>, id: Value, k: nat)
    requires k <= |rows|
    decreases |rows|
    ensures var vs := VideosOf(rows[..k], id); |vs| <= |VideosOf(rows, id)| && vs == VideosOf(rows, id)[..|vs|]
  {
    if k < |rows| {
      var n := |rows| - 1;
      VideosInRowOrder(rows[..n], id, k);
      assert rows[..n][..k] == rows[..k];
    } else {
      assert rows[..k] == rows;
    }
  }

  /** Later rows never change a course's fields: the first row stays the first. */
  lemma {:induction false} FirstIndexStable(rows: seq<Row>, id: Value, k: nat)
    requires k <= |rows| && id in CourseIds(rows[..k])
    decreases |rows|
    ensures id in CourseIds(rows) && FirstIndex(rows, id) == FirstIndex(rows[..k], id)
  {
    if k < |rows| {
      var n := |rows| - 1;
      assert rows[..n][..k] == rows[..k];
      FirstIndexStable(rows[..n], id, k);
    } else {
      assert rows[..k] == rows;
    }
  }

  /** `toggleCourse(courseId)`: the expanded set with `id` flipped. */
  function Toggle(expanded: set<Value>, id: Value): (r: set<Value>)
    ensures id in r <==> id !in expanded
    ensures forall x :: x != id ==> (x in r <==> x in expanded)
  {
    if id in expanded then expanded - {id} else expanded + {id}
  }

  /** Toggling twice restores the set. */
  lemma ToggleTwice(expanded: set<Value>, id: Value)
    ensures Toggle(Toggle(expanded, id), id) == expanded
  {
  }

  /** The page state the handlers update. */
  class Page {
    var expandedCourses: set<Value>

    constructor ()
      ensures expandedCourses == {}
    {
      expandedCourses := {};
    }

    /** Copies the set, adds or deletes the id, and stores the copy. */
    method ToggleCourse(courseId: Value)
      modifies this
      ensures expandedCourses == Toggle(old(expandedCourses), courseId)
    {
      var newExpanded := expandedCourses;
      if courseId in newExpanded {
        newExpanded := newExpanded - {courseId};
      } else {
        newExpanded := newExpanded + {courseId};
      }
      expandedCourses := newExpanded;
    }
  }
}
