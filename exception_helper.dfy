/**
 * ExceptionHelper: finds the stack frame a throwable is blamed on and
 * writes it, with the throwable's message, as a small JSON-like record.
 */
module ExceptionHelper {
  import opened Results
  import opened Text

  /** A StackTraceElement. A line of -2 marks a native method, as in Java. */
  datatype Frame = Frame(className: string, methodName: string, fileName: Option<string>, line: int)

  /** A Throwable: its runtime class name, its message (null when absent) and its stack frames. */
  datatype Throwable = Throwable(className: string, message: Option<string>, frames: seq<Frame>)

  /** StackTraceElement.toString, in its Java 8 form. */
  function FrameString(f: Frame): (s: string)
    ensures StartsWith(s, f.className + "." + f.methodName + "(") && s[|s| - 1] == ')'
    ensures var loc := s[|f.className + "." + f.methodName + "("|..|s| - 1];
      && (f.line == -2 ==> loc == "Native Method")
      && (f.line != -2 && f.fileName.Some? && f.line >= 0 ==> loc == f.fileName.value + ":" + DecimalString(f.line))
      && (f.line != -2 && f.fileName.Some? && f.line < 0 ==> loc == f.fileName.value)
      && (f.line != -2 && f.fileName.None? ==> loc == "Unknown Source")
  {
    var location :=
      if f.line == -2 then "Native Method"
      else match f.fileName
        case Some(file) => if f.line >= 0 then file + ":" + DecimalString(f.line) else file
        case None => "Unknown Source";
    var s := f.className + "." + f.methodName + "(" + location + ")";
    assert s[..|f.className + "." + f.methodName + "("|] == f.className + "." + f.methodName + "(";
    assert s[|f.className + "." + f.methodName + "("|..|s| - 1] == location;
    s
  }

  /** Throwable.toString: the class name, then ": " and the message when there is one. */
  function ThrowableString(t: Throwable): (s: string)
    ensures t.message.None? ==> s == t.className
    ensures t.message.Some? ==> StartsWith(s, t.className + ": ") && s[|t.className| + 2..] == t.message.value
  {
    match t.message
    case None => t.className
    case Some(m) =>
      var s := t.className + ": " + m;
      assert s[..|t.className + ": "|] == t.className + ": ";
      s
  }

  /** The message a search starts from: getMessage() when non-null, else toString(). */
  function BaseMessage(t: Throwable): (m: string)
    ensures t.message.Some? ==> m == t.message.value
    ensures t.message.None? ==> m == t.className
  {
    match t.message
    case Some(msg) => msg
    case None => ThrowableString(t)
  }

  /**
   * getStackTrace(e): the throwable's toString, then one line per frame in
   * order. A null throwable raises NullPointerException.
   */
  method GetStackTrace(e: Option<Throwable>) returns (r: Result<seq<string>>)
    ensures e.None? ==> r == Err(NullPointerException)
    ensures e.Some? ==> r.Ok? && |r.value| == |e.value.frames| + 1
    ensures e.Some? ==> r.value[0] == ThrowableString(e.value)
    ensures e.Some? ==> forall i :: 0 <= i < |e.value.frames| ==> r.value[i + 1] == FrameString(e.value.frames[i])
  {
    if e.None? {
      return Err(NullPointerException);
    }
    var t := e.value;
    var errList := [ThrowableString(t)];
    for i := 0 to |t.frames|
      invariant |errList| == i + 1 && errList[0] == ThrowableString(t)
      invariant forall j :: 0 <= j < i ==> errList[j + 1] == FrameString(t.frames[j])
    {
      errList := errList + [FrameString(t.frames[i])];
    }
    r := Ok(errList);
  }

  /*---- the record ----*/

  const MessageField := "{ \"异常信息\": \""
  const ClassField := "\", \"异常发生位置\": \""
  const MethodField := "\", \"方法\": \""
  const LineField := "\", \"行数\": "
  const Closing := " }"

  /**
   * getErrMsg(errMsg, clazzName, methodName, line): the record
   * { "异常信息": "<msg>", "异常发生位置": "<class>", "方法": "<method>", "行数": <line> }
   * with every double quote of the message preceded by a backslash.
   */
  function FormatErrMsg(errMsg: string, clazzName: string, methodName: string, line: int): (r: string)
    ensures |r| >= |MessageField| + |EscapeQuotes(errMsg)| + |Closing|
    ensures StartsWith(r, MessageField)
    ensures r[|MessageField|..][..|EscapeQuotes(errMsg)|] == EscapeQuotes(errMsg)
    ensures EndsWith(r, Closing)
  {
    Enclosed(MessageField, EscapeQuotes(errMsg), RecordRest(clazzName, methodName, line));
    MessageField + EscapeQuotes(errMsg) + RecordRest(clazzName, methodName, line)
  }

  /** The part of the record after the message: class, method and line in their fields, then the closing brace. */
  function RecordRest(clazzName: string, methodName: string, line: int): (t: string)
    ensures EndsWith(t, Closing)
    ensures StartsWith(t, ClassField) && StartsWith(t[|ClassField|..], clazzName)
  {
    ClassField + clazzName + MethodTail(methodName, line)
  }

  /** The part after the class name: method and line in their fields, then the closing brace. */
  function MethodTail(methodName: string, line: int): string {
    MethodField + methodName + LineField + DecimalString(line) + Closing
  }

  lemma Assoc(x: string, y: string, z: string)
    ensures x + (y + z) == x + y + z
  {
  }

  /** In head + m + tail, the text `m` sits right after `head`, and the text ends as `tail` does. */
  lemma Enclosed(head: string, m: string, tail: string)
    requires EndsWith(tail, Closing)
    ensures StartsWith(head + m + tail, head)
    ensures (head + m + tail)[|head|..][..|m|] == m
    ensures EndsWith(head + m + tail, Closing)
  {
    assert (head + m + tail)[|head|..] == m + tail;
    assert (head + m + tail)[|head + m + tail| - |Closing|..] == tail[|tail| - |Closing|..];
  }

  /** The class name follows the message, in its own field right after the message's closing quote. */
  lemma ClassSlot(errMsg: string, clazzName: string, methodName: string, line: int)
    ensures var r := FormatErrMsg(errMsg, clazzName, methodName, line);
      var at := |MessageField| + |EscapeQuotes(errMsg)|;
      |r| >= at + |ClassField| + |clazzName| &&
      r[at..][..|ClassField|] == ClassField &&
      r[at + |ClassField|..][..|clazzName|] == clazzName
  {
    var t := RecordRest(clazzName, methodName, line);
    var head := MessageField + EscapeQuotes(errMsg);
    assert FormatErrMsg(errMsg, clazzName, methodName, line) == head + t;
    assert (head + t)[|head|..] == t;
    assert (head + t)[|head| + |ClassField|..] == t[|ClassField|..];
  }

  /** After the class name come the method and line fields, then the closing brace. */
  lemma MethodAndLineSlots(errMsg: string, clazzName: string, methodName: string, line: int)
    ensures var r := FormatErrMsg(errMsg, clazzName, methodName, line);
      var at := |MessageField| + |EscapeQuotes(errMsg)| + |ClassField| + |clazzName|;
      |r| >= at && r[at..] == MethodField + methodName + LineField + DecimalString(line) + Closing
  {
    RecordSplit(errMsg, clazzName, methodName, line);
    Suffix(MessageField + EscapeQuotes(errMsg) + ClassField + clazzName, MethodTail(methodName, line));
  }

  /** The record is everything up to the class name, then the method tail. */
  lemma RecordSplit(errMsg: string, clazzName: string, methodName: string, line: int)
    ensures FormatErrMsg(errMsg, clazzName, methodName, line) ==
      MessageField + EscapeQuotes(errMsg) + ClassField + clazzName + MethodTail(methodName, line)
  {
    Assoc(MessageField + EscapeQuotes(errMsg), ClassField + clazzName, MethodTail(methodName, line));
    Assoc(MessageField + EscapeQuotes(errMsg), ClassField, clazzName);
  }

  lemma Suffix(x: string, y: string)
    ensures |x + y| >= |x| && (x + y)[|x|..] == y
  {
  }

  /** The message can be read back out of the record: unescaping its slot gives the original message. */
  lemma FormattedMessageRecoverable(errMsg: string, clazzName: string, methodName: string, line: int)
    ensures var r := FormatErrMsg(errMsg, clazzName, methodName, line);
      UnescapeQuotes(r[|MessageField|..][..|EscapeQuotes(errMsg)|]) == errMsg
  {
    EscapeRoundTrip(errMsg);
  }

  /** Only quotes are altered: a message without quotes appears verbatim, and the slot grows by one per quote. */
  lemma FormattedMessageVerbatim(errMsg: string, clazzName: string, methodName: string, line: int)
    ensures |EscapeQuotes(errMsg)| == |errMsg| + multiset(errMsg)['"']
    ensures (forall i :: 0 <= i < |errMsg| ==> errMsg[i] != '"') ==>
      var r := FormatErrMsg(errMsg, clazzName, methodName, line);
      r[|MessageField|..][..|errMsg|] == errMsg
  {
    EscapeLength(errMsg);
  }

  /** getErrMsg(errMsg, stackTraceElement): the record for one frame, its class, method and line in their fields. */
  function FormatFrame(errMsg: string, f: Frame): (r: string)
    ensures r == MessageField + EscapeQuotes(errMsg) + ClassField + f.className + MethodField + f.methodName
      + LineField + DecimalString(f.line) + Closing
  {
    RecordSplit(errMsg, f.className, f.methodName, f.line);
    TailChain(MessageField + EscapeQuotes(errMsg) + ClassField + f.className, f.methodName, f.line);
    FormatErrMsg(errMsg, f.className, f.methodName, f.line)
  }

  lemma TailChain(head: string, methodName: string, line: int)
    ensures head + MethodTail(methodName, line) ==
      head + MethodField + methodName + LineField + DecimalString(line) + Closing
  {
    Assoc(head, MethodField + methodName + LineField + DecimalString(line), Closing);
    Assoc(head, MethodField + methodName + LineField, DecimalString(line));
    Assoc(head, MethodField + methodName, LineField);
    Assoc(head, MethodField, methodName);
  }

  /*---- getErrMsg(Throwable, Class) ----*/

  /** The frame test of the class search: any frame for a null class, else a frame of that class. */
  predicate ClassMatches(f: Frame, clazz: Option<string>) {
    clazz.None? || clazz.value == f.className
  }

  /** The index of the first frame the class search accepts. */
  function FirstFrameOfClass(frames: seq<Frame>, clazz: Option<string>): (r: Option<nat>)
    ensures r.Some? ==> r.value < |frames| && ClassMatches(frames[r.value], clazz)
    ensures r.Some? ==> forall j :: 0 <= j < r.value ==> !ClassMatches(frames[j], clazz)
    ensures r.None? ==> forall j :: 0 <= j < |frames| ==> !ClassMatches(frames[j], clazz)
    decreases |frames|
  {
    if |frames| == 0 then None
    else if ClassMatches(frames[0], clazz) then Some(0)
    else match FirstFrameOfClass(frames[1..], clazz)
      case None => None
      case Some(k) => Some(k + 1)
  }

  /**
   * What getErrMsg(throwable, clazz) returns: null for a null throwable, the
   * record of the first accepted frame, or the base message when no frame
   * is accepted.
   */
  function ErrMsgOfClass(throwable: Option<Throwable>, clazz: Option<string>): (r: Option<string>)
    ensures throwable.None? <==> r.None?
    ensures throwable.Some? && clazz.None? && |throwable.value.frames| > 0 ==>
      r == Some(FormatFrame(BaseMessage(throwable.value), throwable.value.frames[0]))
    ensures throwable.Some? && (forall j :: 0 <= j < |throwable.value.frames| ==> !ClassMatches(throwable.value.frames[j], clazz)) ==>
      r == Some(BaseMessage(throwable.value))
  {
    match throwable
    case None => None
    case Some(t) =>
      match FirstFrameOfClass(t.frames, clazz)
      case Some(i) => Some(FormatFrame(BaseMessage(t), t.frames[i]))
      case None => Some(BaseMessage(t))
  }

  /** getErrMsg(throwable, clazz): walks the frames and stops at the first accepted one. */
  method GetErrMsgOfClass(throwable: Option<Throwable>, clazz: Option<string>) returns (r: Option<string>)
    ensures r == ErrMsgOfClass(throwable, clazz)
  {
    if throwable.None? {
      return None;
    }
    var errMsg := BaseMessage(throwable.value);
    var s := throwable.value.frames;
    var i := 0;
    while i < |s|
      invariant 0 <= i <= |s|
      invariant forall j :: 0 <= j < i ==> !ClassMatches(s[j], clazz)
    {
      var clazzName := s[i].className;
      if clazz.None? || clazz.value == clazzName {
        return Some(FormatFrame(errMsg, s[i]));
      }
      i := i + 1;
    }
    r := Some(errMsg);
  }

  /** A frame of exactly the given class is preferred to every earlier frame of other classes. */
  lemma ClassSearchPicksFirstOfClass(t: Throwable, clazz: string, i: nat)
    requires i < |t.frames| && t.frames[i].className == clazz
    requires forall j :: 0 <= j < i ==> t.frames[j].className != clazz
    ensures ErrMsgOfClass(Some(t), Some(clazz)) == Some(FormatFrame(BaseMessage(t), t.frames[i]))
  {
    var found := FirstFrameOfClass(t.frames, Some(clazz));
    assert found.Some?;
    assert found.value == i;
  }

  /*---- getErrMsg(Throwable, String, List) ----*/

  /** The list an exclude list is filtered with, when ListUtils.removeByFilter is given the filter. */
  type RemoveByFilter = (seq<string>, string -> bool) -> seq<string>

  /**
   * filterExcludePackages: a null or empty list is returned as it is;
   * otherwise ListUtils.removeByFilter drops the entries not under the work
   * package.
   */
  function FilterExcludePackages(workPackageName: string, excludePackages: Option<seq<string>>,
                                 removeByFilter: RemoveByFilter): (r: Option<seq<string>>)
    ensures excludePackages.None? ==> r.None?
    ensures excludePackages.Some? && |excludePackages.value| == 0 ==> r == excludePackages
    ensures excludePackages.Some? && |excludePackages.value| > 0 ==>
      r == Some(removeByFilter(excludePackages.value, item => !Contains(item, workPackageName)))
  {
    match excludePackages
    case None => None
    case Some(list) =>
      if |list| == 0 then excludePackages
      else Some(removeByFilter(list, item => !Contains(item, workPackageName)))
  }

  /** What isUnderPackage answers: some entry of the list contains the class name. */
  predicate UnderPackage(targetPackage: string, testPackageList: Option<seq<string>>) {
    testPackageList.Some? &&
    exists i :: 0 <= i < |testPackageList.value| && Contains(testPackageList.value[i], targetPackage)
  }

  /** isUnderPackage: false for a null or empty list, otherwise whether some entry contains the target. */
  method IsUnderPackage(targetPackage: string, testPackageList: Option<seq<string>>) returns (r: bool)
    ensures testPackageList.None? || |testPackageList.value| == 0 ==> !r
    ensures r <==> UnderPackage(targetPackage, testPackageList)
  {
    if testPackageList.None? || |testPackageList.value| == 0 {
      return false;
    }
    var list := testPackageList.value;
    for i := 0 to |list|
      invariant forall j :: 0 <= j < i ==> !Contains(list[j], targetPackage)
    {
      if Contains(list[i], targetPackage) {
        return true;
      }
    }
    r := false;
  }

  /** The frame test of the package search: under the work package and not excluded. */
  predicate WorkFrame(f: Frame, workPackageName: string, excludes: Option<seq<string>>) {
    Contains(f.className, workPackageName) && !UnderPackage(f.className, excludes)
  }

  /** The index of the first frame the package search accepts. */
  function FirstWorkFrame(frames: seq<Frame>, workPackageName: string, excludes: Option<seq<string>>): (r: Option<nat>)
    ensures r.Some? ==> r.value < |frames| && WorkFrame(frames[r.value], workPackageName, excludes)
    ensures r.Some? ==> forall j :: 0 <= j < r.value ==> !WorkFrame(frames[j], workPackageName, excludes)
    ensures r.None? ==> forall j :: 0 <= j < |frames| ==> !WorkFrame(frames[j], workPackageName, excludes)
    decreases |frames|
  {
    if |frames| == 0 then None
    else if WorkFrame(frames[0], workPackageName, excludes) then Some(0)
    else match FirstWorkFrame(frames[1..], workPackageName, excludes)
      case None => None
      case Some(k) => Some(k + 1)
  }

  /** The first accepted frame is the one before which no frame is accepted. */
  lemma {:induction false} FirstWorkFrameAt(frames: seq<Frame>, workPackageName: string, excludes: Option<seq<string>>, i: nat)
    requires i < |frames| && WorkFrame(frames[i], workPackageName, excludes)
    requires forall j :: 0 <= j < i ==> !WorkFrame(frames[j], workPackageName, excludes)
    ensures FirstWorkFrame(frames, workPackageName, excludes) == Some(i)
    decreases i
  {
    if i > 0 {
      assert forall j :: 0 <= j < i - 1 ==> frames[1..][j] == frames[j + 1];
      FirstWorkFrameAt(frames[1..], workPackageName, excludes, i - 1);
    }
  }

  /**
   * What getErrMsg(throwable, workPackageName, excludePackageList) returns:
   * null for a null throwable; for a null work package the base message
   * (the NullPointerException of contains(null) is swallowed by the
   * catch-all); otherwise the record of the first frame under the work
   * package and not under a kept exclude entry, or the base message.
   */
  function ErrMsgInPackage(throwable: Option<Throwable>, workPackageName: Option<string>,
                           excludePackageList: Option<seq<string>>, removeByFilter: RemoveByFilter): (r: Option<string>)
    ensures throwable.None? <==> r.None?
    ensures throwable.Some? && workPackageName.None? ==> r == Some(BaseMessage(throwable.value))
    ensures throwable.Some? && workPackageName.Some? ==>
      var excludes := FilterExcludePackages(workPackageName.value, excludePackageList, removeByFilter);
      (forall j :: 0 <= j < |throwable.value.frames| ==> !WorkFrame(throwable.value.frames[j], workPackageName.value, excludes)) ==>
        r == Some(BaseMessage(throwable.value))
    ensures throwable.Some? && workPackageName.Some? ==>
      var excludes := FilterExcludePackages(workPackageName.value, excludePackageList, removeByFilter);
      var found := FirstWorkFrame(throwable.value.frames, workPackageName.value, excludes);
      found.Some? ==> r == Some(FormatFrame(BaseMessage(throwable.value), throwable.value.frames[found.value]))
  {
    match throwable
    case None => None
    case Some(t) =>
      match workPackageName
      case None => Some(BaseMessage(t))
      case Some(work) =>
        var excludes := FilterExcludePackages(work, excludePackageList, removeByFilter);
        match FirstWorkFrame(t.frames, work, excludes)
        case Some(i) => Some(FormatFrame(BaseMessage(t), t.frames[i]))
        case None => Some(BaseMessage(t))
  }

  /** getErrMsg(throwable, workPackageName, excludePackageList): skips excluded frames, stops at the first kept one. */
  method GetErrMsgInPackage(throwable: Option<Throwable>, workPackageName: Option<string>,
                            excludePackageList: Option<seq<string>>, removeByFilter: RemoveByFilter)
    returns (r: Option<string>)
    ensures r == ErrMsgInPackage(throwable, workPackageName, excludePackageList, removeByFilter)
  {
    if throwable.None? {
      return None;
    }
    var errMsg := BaseMessage(throwable.value);
    if workPackageName.None? {
      return Some(errMsg);
    }
    var work := workPackageName.value;
    var excludes := FilterExcludePackages(work, excludePackageList, removeByFilter);
    var s := throwable.value.frames;
    var i := 0;
    while i < |s|
      invariant 0 <= i <= |s|
      invariant forall j :: 0 <= j < i ==> !WorkFrame(s[j], work, excludes)
    {
      var clazzName := s[i].className;
      if Contains(clazzName, work) {
        var under := IsUnderPackage(clazzName, excludes);
        if !under {
          FirstWorkFrameAt(s, work, excludes, i);
          return Some(FormatFrame(errMsg, s[i]));
        }
      }
      i := i + 1;
    }
    assert FirstWorkFrame(s, work, excludes).None?;
    r := Some(errMsg);
  }

  /**
   * The package search formats the first frame whose class lies under the
   * work package and under no kept exclude entry, whatever frames follow.
   */
  lemma PackageSearchPicksFirstWorkFrame(t: Throwable, work: string, excludePackageList: Option<seq<string>>,
                                         removeByFilter: RemoveByFilter, i: nat)
    requires i < |t.frames|
    requires WorkFrame(t.frames[i], work, FilterExcludePackages(work, excludePackageList, removeByFilter))
    requires forall j :: 0 <= j < i ==>
      !WorkFrame(t.frames[j], work, FilterExcludePackages(work, excludePackageList, removeByFilter))
    ensures ErrMsgInPackage(Some(t), Some(work), excludePackageList, removeByFilter) ==
      Some(FormatFrame(BaseMessage(t), t.frames[i]))
  {
    FirstWorkFrameAt(t.frames, work, FilterExcludePackages(work, excludePackageList, removeByFilter), i);
  }

  /** A frame under the work package is skipped exactly when some kept exclude entry contains its class name. */
  lemma ExcludedFrameSkipped(t: Throwable, work: string, excludes: seq<string>, removeByFilter: RemoveByFilter, k: nat)
    requires |excludes| > 0 && |t.frames| == 2 && k < |excludes|
    requires Contains(t.frames[0].className, work) && Contains(t.frames[1].className, work)
    requires removeByFilter(excludes, item => !Contains(item, work)) == excludes
    requires Contains(excludes[k], t.frames[0].className)
    requires !UnderPackage(t.frames[1].className, Some(excludes))
    ensures ErrMsgInPackage(Some(t), Some(work), Some(excludes), removeByFilter) ==
      Some(FormatFrame(BaseMessage(t), t.frames[1]))
  {
    var kept := FilterExcludePackages(work, Some(excludes), removeByFilter);
    assert kept == Some(excludes);
    assert UnderPackage(t.frames[0].className, kept);
    assert !WorkFrame(t.frames[0], work, kept);
    assert WorkFrame(t.frames[1], work, kept);
    assert FirstWorkFrame(t.frames, work, kept) == Some(1);
  }

  /*---- the instance ----*/

  /** An ExceptionHelper bound to a work package, with the exclude list it grows. */
  class Helper {
    var workPackage: Option<string>
    var excludePackageList: seq<string>

    /** ExceptionHelper(workPackage, excludePackageList): a null list is replaced by an empty one. */
    constructor (workPackage: Option<string>, excludePackageList: Option<seq<string>>)
      ensures this.workPackage == workPackage
      ensures this.excludePackageList == excludePackageList.GetOr([])
    {
      this.workPackage := workPackage;
      if excludePackageList.Some? {
        this.excludePackageList := excludePackageList.value;
      } else {
        this.excludePackageList := [];
      }
    }

    /** ExceptionHelper(workPackage): no exclude list. */
    constructor WithoutExcludes(workPackage: Option<string>)
      ensures this.workPackage == workPackage && this.excludePackageList == []
    {
      this.workPackage := workPackage;
      this.excludePackageList := [];
    }

    /**
     * getErrMsg(throwable, shouldExcludeUtilsPackage): when asked, appends
     * the utility library's package name to the exclude list (once more on
     * every call), then runs the package search with the work package and
     * the grown list.
     */
    method GetErrMsg(throwable: Option<Throwable>, shouldExcludeUtilsPackage: bool,
                     utilsPackageName: string, removeByFilter: RemoveByFilter) returns (r: Option<string>)
      modifies this
      ensures workPackage == old(workPackage)
      ensures shouldExcludeUtilsPackage ==> excludePackageList == old(excludePackageList) + [utilsPackageName]
      ensures !shouldExcludeUtilsPackage ==> excludePackageList == old(excludePackageList)
      ensures r == ErrMsgInPackage(throwable, workPackage, Some(excludePackageList), removeByFilter)
    {
      if shouldExcludeUtilsPackage {
        excludePackageList := excludePackageList + [utilsPackageName];
      }
      r := GetErrMsgInPackage(throwable, workPackage, Some(excludePackageList), removeByFilter);
    }

    /** getErrMsg(throwable): getErrMsg(throwable, true). */
    method GetErrMsgExcludingUtils(throwable: Option<Throwable>, utilsPackageName: string,
                                   removeByFilter: RemoveByFilter) returns (r: Option<string>)
      modifies this
      ensures workPackage == old(workPackage)
      ensures excludePackageList == old(excludePackageList) + [utilsPackageName]
      ensures r == ErrMsgInPackage(throwable, workPackage, Some(excludePackageList), removeByFilter)
    {
      r := GetErrMsg(throwable, true, utilsPackageName, removeByFilter);
    }
  }

  /** n calls of getErrMsg(t, true) leave the exclude list n entries longer. */
  method RepeatedCallsGrowList(helper: Helper, t: Throwable, utilsPackageName: string,
                               removeByFilter: RemoveByFilter, n: nat)
    modifies helper
    ensures |helper.excludePackageList| == |old(helper.excludePackageList)| + n
    ensures helper.excludePackageList[..|old(helper.excludePackageList)|] == old(helper.excludePackageList)
    ensures forall i :: |old(helper.excludePackageList)| <= i < |helper.excludePackageList| ==>
      helper.excludePackageList[i] == utilsPackageName
  {
    ghost var before := helper.excludePackageList;
    for k := 0 to n
      invariant |helper.excludePackageList| == |before| + k
      invariant helper.excludePackageList[..|before|] == before
      invariant forall i :: |before| <= i < |helper.excludePackageList| ==> helper.excludePackageList[i] == utilsPackageName
    {
      var _ := helper.GetErrMsgExcludingUtils(Some(t), utilsPackageName, removeByFilter);
    }
  }
}
