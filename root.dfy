/**
 * app/root.tsx: the `classNames` helper, the page-title fallback of `Layout`, and the
 * message the `ErrorBoundary` shows.
 */
module Root {
  import opened Wrappers
  import Strings
  import Seqs

  /** One argument of `classNames`: a string, a boolean, `undefined` or `null`. */
  datatype ClassArg = Str(s: string) | Flag(b: bool) | Undefined | Null

  /** JavaScript truthiness of a class argument. */
  predicate Kept(arg: ClassArg) {
    (arg.Str? && arg.s != []) || (arg.Flag? && arg.b)
  }

  /** How `join` writes a kept argument; `true` is written as the word. */
  function Text(arg: ClassArg): string {
    match arg
    case Str(s) => s
    case Flag(b) => if b then "true" else "false"
    case Undefined => []
    case Null => []
  }

  function Texts(args: seq<ClassArg>): (texts: seq<string>)
    ensures |texts| == |args|
    ensures forall i :: 0 <= i < |args| ==> texts[i] == Text(args[i])
  {
    seq(|args|, i requires 0 <= i < |args| => Text(args[i]))
  }

  /** The texts of the kept arguments, in order. */
  function KeptTexts(classes: seq<ClassArg>): seq<string> {
    Texts(Seqs.Filter(classes, Kept))
  }

  /**
   * The truthy arguments joined with single spaces: the result holds nothing but spaces
   * and the characters of the truthy arguments' texts.
   */
  function ClassNames(classes: seq<ClassArg>): (names: string)
    ensures forall c :: c in names ==> c == ' ' || exists i :: 0 <= i < |classes| && Kept(classes[i]) && c in Text(classes[i])
  {
    var kept := Seqs.Filter(classes, Kept);
    var texts := KeptTexts(classes);
    Strings.JoinChars(texts, " ");
    assert forall c :: c in Strings.Join(texts, " ") && c != ' ' ==> exists k :: 0 <= k < |texts| && c in texts[k];
    forall c | c in Strings.Join(texts, " ") && c != ' '
      ensures exists i :: 0 <= i < |classes| && Kept(classes[i]) && c in Text(classes[i])
    {
      var k :| 0 <= k < |texts| && c in texts[k];
      assert kept[k] in kept;
      var i :| 0 <= i < |classes| && classes[i] == kept[k];
    }
    Strings.Join(texts, " ")
  }

  /** Falsy arguments contribute nothing: only the kept ones decide the result. */
  lemma ClassNamesIgnoresFalsy(classes: seq<ClassArg>)
    ensures ClassNames(classes) == ClassNames(Seqs.Filter(classes, Kept))
  {
    Seqs.FilterAll(Seqs.Filter(classes, Kept), Kept);
  }

  /** Only falsy arguments give the empty string. */
  lemma AllFalsyIsEmpty(classes: seq<ClassArg>)
    requires forall i :: 0 <= i < |classes| ==> !Kept(classes[i])
    ensures ClassNames(classes) == []
  {
    Seqs.FilterNone(classes, Kept);
  }

  /** A single string is returned as it is. */
  lemma SingleString(s: string)
    ensures ClassNames([Str(s)]) == s
  {
    var kept := Seqs.Filter([Str(s)], Kept);
    if s == [] {
      assert kept == [];
    } else {
      assert kept == [Str(s)];
    }
  }

  /**
   * The kept arguments appear in order, separated by exactly one space: splitting the
   * result at spaces gives them back when none of them holds a space itself.
   */
  lemma SplitRecoversKept(classes: seq<ClassArg>)
    requires forall i :: 0 <= i < |classes| ==> ' ' !in Text(classes[i])
    requires exists i :: 0 <= i < |classes| && Kept(classes[i])
    ensures Strings.Split(ClassNames(classes), ' ') == KeptTexts(classes)
  {
    var kept := Seqs.Filter(classes, Kept);
    var i :| 0 <= i < |classes| && Kept(classes[i]);
    assert classes[i] in kept;
    var texts := KeptTexts(classes);
    forall j | 0 <= j < |texts| ensures ' ' !in texts[j] {
      assert kept[j] in classes;
      var k :| 0 <= k < |classes| && classes[k] == kept[j];
      assert texts[j] == Text(classes[k]);
    }
    SplitJoinSpaces(ClassNames(classes), texts);
  }

  lemma SplitJoinSpaces(joined: string, texts: seq<string>)
    requires texts != [] && joined == Strings.Join(texts, " ")
    requires forall j :: 0 <= j < |texts| ==> ' ' !in texts[j]
    ensures Strings.Split(joined, ' ') == texts
  {
    Strings.SplitJoin(texts, ' ');
  }

  /** The last route match, as far as the title goes: its loader data's and its handle's `title`. */
  datatype RouteMatch = RouteMatch(dataTitle: Option<string>, handleTitle: Option<string>)

  const TitleFallback := "Failed to retrieve page title"

  /** The page title: the last match's data title, else its handle title, else the fallback. */
  function PageTitle(matches: seq<RouteMatch>): (title: string)
    ensures matches == [] ==> title == TitleFallback
    ensures matches != [] && Truthy(matches[|matches| - 1].dataTitle) ==>
      title == matches[|matches| - 1].dataTitle.value
    ensures matches != [] && !Truthy(matches[|matches| - 1].dataTitle) && Truthy(matches[|matches| - 1].handleTitle) ==>
      title == matches[|matches| - 1].handleTitle.value
    ensures matches != [] && !Truthy(matches[|matches| - 1].dataTitle) && !Truthy(matches[|matches| - 1].handleTitle) ==>
      title == TitleFallback
  {
    if matches == [] then TitleFallback
    else
      var current := matches[|matches| - 1];
      OrElse(current.dataTitle, OrElse(current.handleTitle, TitleFallback))
  }

  /** There is always a title to show, and only the last match decides it. */
  lemma PageTitleOfLastMatch(earlier: seq<RouteMatch>, current: RouteMatch)
    ensures PageTitle(earlier + [current]) == PageTitle([current])
    ensures PageTitle(earlier + [current]) != []
  {
  }

  /** What the `ErrorBoundary` receives. */
  datatype RouteError =
    | ErrorResponse(status: int, statusText: string)      // a thrown route error response
    | ScriptError(message: string, stack: Option<string>) // an `Error` instance
    | OtherError                                          // anything else

  /** The heading, the details and the stack trace the boundary shows. */
  datatype ErrorView = ErrorView(message: string, details: string, stack: Option<string>)

  const DefaultDetails := "An unexpected error occurred."

  /** `ErrorBoundary`; `dev` is whether the build is a development build. */
  function ErrorBoundary(error: RouteError, dev: bool): (view: ErrorView)
    ensures view.message == "404" <==> error.ErrorResponse? && error.status == 404
    ensures error.ErrorResponse? && error.status == 404 ==>
      view == ErrorView("404", "The requested page could not be found.", None)
    ensures error.ErrorResponse? && error.status != 404 ==>
      view == ErrorView("Error", OrElse(Some(error.statusText), DefaultDetails), None)
    ensures error.ScriptError? && dev ==> view == ErrorView("Oops!", error.message, error.stack)
    ensures error.OtherError? || (error.ScriptError? && !dev) ==> view == ErrorView("Oops!", DefaultDetails, None)
    ensures view.stack.Some? ==> dev
  {
    match error
    case ErrorResponse(status, statusText) =>
      if status == 404 then ErrorView("404", "The requested page could not be found.", None)
      else ErrorView("Error", OrElse(Some(statusText), DefaultDetails), None)
    case ScriptError(message, stack) =>
      if dev then ErrorView("Oops!", message, stack) else ErrorView("Oops!", DefaultDetails, None)
    case OtherError => ErrorView("Oops!", DefaultDetails, None)
  }

  /** Outside development the boundary never shows an empty explanation or a stack trace. */
  lemma ProductionViewHasDetails(error: RouteError)
    ensures ErrorBoundary(error, false).details != []
    ensures ErrorBoundary(error, false).stack.None?
  {
  }
}
