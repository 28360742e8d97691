/**
 * A course card picks one of five icons from the course name: the name is
 * lowercased, then searched for keywords in a fixed order.
 */
module CourseCard {
  import opened JsValue
  import opened JsString

  /** The keywords that select the MERN icon. */
  predicate MernName(name: string) {
    Includes(name, "mern") || Includes(name, "mongo") || Includes(name, "express")
    || Includes(name, "react") || Includes(name, "node")
  }

  predicate AiName(name: string) {
    Includes(name, "ai") || Includes(name, "artificial")
  }

  /** The icon labels a card can show. */
  predicate IsLabel(r: string) {
    r == "mern" || r == "python" || r == "android" || r == "ai" || r == "default"
  }

  /** `getCourseIcon(courseName)`; `None` stands for `null` or `undefined`, whose `?.` gives `''`. */
  function CourseIcon(courseName: Option<string>): (r: string)
    ensures IsLabel(r)
    ensures courseName == None ==> r == "default"
  {
    var name := if courseName.Some? then ToLower(courseName.value) else "";
    if MernName(name) then "mern"
    else if Includes(name, "python") then "python"
    else if Includes(name, "android") then "android"
    else if AiName(name) then "ai"
    else "default"
  }

  /** The first keyword group that matches, in the order mern, python, android, ai, decides the icon. */
  lemma FirstMatchWins(n: string)
    ensures var name := ToLower(n);
      var r := CourseIcon(Some(n));
      (r == "mern" <==> MernName(name))
      && (r == "python" <==> !MernName(name) && Includes(name, "python"))
      && (r == "android" <==> !MernName(name) && !Includes(name, "python") && Includes(name, "android"))
      && (r == "ai" <==> !MernName(name) && !Includes(name, "python") && !Includes(name, "android") && AiName(name))
      && (r == "default" <==> !MernName(name) && !Includes(name, "python") && !Includes(name, "android") && !AiName(name))
  {
  }

  /** Matching ignores case: a name and its lowercase form get the same icon. */
  lemma {:induction false} CaseInsensitive(n: string)
    ensures CourseIcon(Some(ToLower(n))) == CourseIcon(Some(n))
  {
    ToLowerIdempotent(n);
  }

  /** `ai` anywhere in the lowercased name, with no earlier keyword, gives the AI icon. */
  lemma AiAnywhere(n: string, i: int)
    requires OccursAt(ToLower(n), "ai", i)
    requires !MernName(ToLower(n)) && !Includes(ToLower(n), "python") && !Includes(ToLower(n), "android")
    ensures CourseIcon(Some(n)) == "ai"
  {
    OccurrenceIncludes(ToLower(n), "ai", i);
  }

  /** An empty name gets the default icon. */
  lemma EmptyNameDefault()
    ensures CourseIcon(Some("")) == "default"
  {
    assert ToLower("") == "";
  }
}
