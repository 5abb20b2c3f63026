/** Capabilities, commands, element references and the published snapshot of a browser worker. */
module Contract {
  import opened Wrappers
  import Sorting
  import opened Bytes

  const MAX_CAPABILITIES: nat := 16
  const MAX_KEY_BYTES: nat := 64
  const MAX_TEXT_BYTES: nat := 64 * 1024
  const MAX_SCRIPT_BYTES: nat := 64 * 1024
  const MAX_SCRIPT_RESULT_BYTES: nat := 4 * 1024 * 1024
  const MAX_UPLOAD_PATH_BYTES: nat := 4 * 1024
  const MAX_TAB_ID_BYTES: nat := 1024
  const MAX_SELECTOR_BYTES: nat := 4096
  const MAX_IMPORT_COOKIES: nat := 512
  const MAX_COOKIE_NAME_BYTES: nat := 4 * 1024
  const MAX_COOKIE_VALUE_BYTES: nat := 8 * 1024
  const MAX_COOKIE_DOMAIN_BYTES: nat := 256
  const MAX_COOKIE_PATH_BYTES: nat := 4 * 1024

  /** The three levels of the source, flattened in their derived order. */
  datatype Capability =
    | Pointer | Keyboard | Scroll
    | Inspect | Interact | Evaluation
    | Navigation | Capturing | Lifecycle

  function Rank(c: Capability): nat {
    match c
    case Pointer => 0
    case Keyboard => 1
    case Scroll => 2
    case Inspect => 3
    case Interact => 4
    case Evaluation => 5
    case Navigation => 6
    case Capturing => 7
    case Lifecycle => 8
  }

  datatype ContractError = TooManyCapabilities(maximum: nat, actual: nat) | DuplicateCapability | InvalidSelector

  predicate Sorted(s: seq<Capability>) {
    forall i :: 0 <= i < |s| - 1 ==> Rank(s[i]) <= Rank(s[i + 1])
  }

  predicate StrictlySorted(s: seq<Capability>) {
    forall i, j :: 0 <= i < j < |s| ==> Rank(s[i]) < Rank(s[j])
  }

  type CapabilitySet = s: seq<Capability> | StrictlySorted(s)

  predicate AtMost(a: Capability, b: Capability) {
    Rank(a) <= Rank(b)
  }

  predicate HasDuplicate(s: seq<Capability>) {
    exists i, j :: 0 <= i < j < |s| && s[i] == s[j]
  }

  lemma {:induction false} TwiceIsDuplicate(s: seq<Capability>, c: Capability)
    requires multiset(s)[c] >= 2
    ensures HasDuplicate(s)
  {
    assert s == [s[0]] + s[1..];
    if s[0] == c {
      assert c in s[1..];
      var k :| 0 <= k < |s[1..]| && s[1..][k] == c;
      assert s[0] == s[k + 1];
    } else {
      TwiceIsDuplicate(s[1..], c);
      var i, j :| 0 <= i < j < |s[1..]| && s[1..][i] == s[1..][j];
      assert s[i + 1] == s[j + 1];
    }
  }

  lemma DuplicateTransfers(s: seq<Capability>, t: seq<Capability>)
    requires multiset(s) == multiset(t) && HasDuplicate(s)
    ensures HasDuplicate(t)
  {
    var i, j :| 0 <= i < j < |s| && s[i] == s[j];
    Sorting.CountedTwice(s, i, j);
    TwiceIsDuplicate(t, s[i]);
  }

  lemma {:induction false} DistinctNeighbours(s: seq<Capability>)
    requires Sorted(s) && forall k :: 0 <= k < |s| - 1 ==> s[k] != s[k + 1]
    ensures StrictlySorted(s) && !HasDuplicate(s)
  {
    if |s| > 1 {
      DistinctNeighbours(s[1..]);
      assert Rank(s[0]) < Rank(s[1]);
      forall i, j | 0 <= i < j < |s|
        ensures Rank(s[i]) < Rank(s[j])
      {
        assert s[j] == s[1..][j - 1];
        if i > 0 {
          assert s[i] == s[1..][i - 1];
        } else {
          assert s[1] == s[1..][0];
        }
      }
    }
  }

  /** Sort, then look for equal neighbours: refuses exactly oversized and duplicated requests. */
  method NewCapabilitySet(requested: seq<Capability>) returns (r: Result<CapabilitySet, ContractError>)
    ensures |requested| > 16 ==> r == Err(TooManyCapabilities(16, |requested|))
    ensures |requested| <= 16 && HasDuplicate(requested) ==> r == Err(DuplicateCapability)
    ensures |requested| <= 16 && !HasDuplicate(requested) ==>
              r.Ok? && multiset(r.value) == multiset(requested)
  {
    if |requested| > MAX_CAPABILITIES {
      return Err(TooManyCapabilities(MAX_CAPABILITIES, |requested|));
    }
    var capabilities := Sorting.Sorted(requested, AtMost); // equal capabilities are indistinguishable
    Sorting.SortedContents(requested, AtMost);
    Sorting.SortedOrdered(requested, AtMost);
    var i := 0;
    while i + 1 < |capabilities|
      invariant 0 <= i <= |capabilities|
      invariant forall k :: 0 <= k < i && k + 1 < |capabilities| ==> capabilities[k] != capabilities[k + 1]
    {
      if capabilities[i] == capabilities[i + 1] {
        DuplicateTransfers(capabilities, requested);
        return Err(DuplicateCapability);
      }
      i := i + 1;
    }
    DistinctNeighbours(capabilities);
    if HasDuplicate(requested) {
      DuplicateTransfers(requested, capabilities);
    }
    return Ok(capabilities);
  }

  /** Binary search of s[lo..hi]. */
  predicate Search(s: seq<Capability>, c: Capability, lo: nat, hi: nat)
    requires lo <= hi <= |s|
    decreases hi - lo
  {
    if lo == hi then false
    else
      var mid := lo + (hi - lo) / 2;
      if Rank(s[mid]) == Rank(c) then true
      else if Rank(s[mid]) < Rank(c) then Search(s, c, mid + 1, hi)
      else Search(s, c, lo, mid)
  }

  lemma {:induction false} SearchIsMembership(s: seq<Capability>, c: Capability, lo: nat, hi: nat)
    requires StrictlySorted(s) && lo <= hi <= |s|
    ensures Search(s, c, lo, hi) <==> exists k :: lo <= k < hi && s[k] == c
    decreases hi - lo
  {
    if lo < hi {
      var mid := lo + (hi - lo) / 2;
      if Rank(s[mid]) == Rank(c) {
        SameRank(s[mid], c);
      } else if Rank(s[mid]) < Rank(c) {
        SearchIsMembership(s, c, mid + 1, hi);
        NotBefore(s, c, mid);
      } else {
        SearchIsMembership(s, c, lo, mid);
        NotAfter(s, c, mid);
      }
    }
  }

  lemma NotBefore(s: seq<Capability>, c: Capability, mid: nat)
    requires StrictlySorted(s) && mid < |s| && Rank(s[mid]) < Rank(c)
    ensures forall k :: 0 <= k <= mid ==> s[k] != c
  {
  }

  lemma NotAfter(s: seq<Capability>, c: Capability, mid: nat)
    requires StrictlySorted(s) && mid < |s| && Rank(s[mid]) > Rank(c)
    ensures forall k :: mid <= k < |s| ==> s[k] != c
  {
  }

  lemma SameRank(a: Capability, b: Capability)
    requires Rank(a) == Rank(b)
    ensures a == b
  {
  }

  /** The binary search behind every gate is plain membership. */
  predicate Contains(s: CapabilitySet, c: Capability)
    ensures Contains(s, c) <==> c in s
  {
    SearchIsMembership(s, c, 0, |s|);
    Search(s, c, 0, |s|)
  }

  datatype ElementRef = ElementRef(selector: Text, pageEpoch: nat)

  /** A floating point argument: only finiteness matters to the worker. */
  datatype Float = Finite(value: real) | NotFinite

  datatype Cookie = Cookie(name: Text, value: Text, domain: Text, path: Text)

  datatype Command =
    | ClickAt(x: Float, y: Float)
    | Wheel(x: Float, y: Float, deltaX: Float, deltaY: Float)
    | KeyPress(key: Text)
    | ResolveElement(selector: Text)
    | ClickElement(element: ElementRef)
    | TypeElement(element: ElementRef, text: Text)
    | SelectOption(element: ElementRef, value: Text)
    | UploadFile(element: ElementRef, path: Text)
    | WaitForDownload(timeout: nat)
    | ReadElementText(element: ElementRef)
    | ObserveDocument
    | ReadInteractiveElements
    | Evaluate(script: Text)
    | Navigate(url: Text)
    | Capture(policy: nat)
    | SetCookies(cookies: seq<Cookie>)
    | ListTabs
    | SwitchToTab(id: Text)
    | Restart
    | Shutdown

  function Required(command: Command): Capability {
    match command
    case ClickAt(_, _) => Pointer
    case Wheel(_, _, _, _) => Scroll
    case KeyPress(_) => Keyboard
    case ResolveElement(_) => Inspect
    case ReadElementText(_) => Inspect
    case ObserveDocument => Inspect
    case ReadInteractiveElements => Inspect
    case ClickElement(_) => Interact
    case TypeElement(_, _) => Interact
    case SelectOption(_, _) => Interact
    case UploadFile(_, _) => Interact
    case Evaluate(_) => Evaluation
    case Navigate(_) => Navigation
    case Capture(_) => Capturing
    case WaitForDownload(_) => Capturing
    case SetCookies(_) => Interact
    case ListTabs => Inspect
    case SwitchToTab(_) => Lifecycle
    case Restart => Lifecycle
    case Shutdown => Lifecycle
  }

  /** The commands that a capability permits. */
  predicate Permits(c: Capability, command: Command) {
    match c
    case Pointer => command.ClickAt?
    case Scroll => command.Wheel?
    case Keyboard => command.KeyPress?
    case Inspect =>
      command.ResolveElement? || command.ReadElementText? || command.ObserveDocument? || command.ReadInteractiveElements?
      || command.ListTabs?
    case Interact =>
      command.ClickElement? || command.TypeElement? || command.SelectOption? || command.UploadFile? || command.SetCookies?
    case Evaluation => command.Evaluate?
    case Navigation => command.Navigate?
    case Capturing => command.Capture? || command.WaitForDownload?
    case Lifecycle => command.SwitchToTab? || command.Restart? || command.Shutdown?
  }

  /** Every command is permitted by one capability, the one it requires. */
  lemma PermittedByOne(c: Capability, command: Command)
    ensures Permits(c, command) <==> c == Required(command)
  {
  }

  lemma PermittedOnlyBy(command: Command)
    ensures Permits(Required(command), command) && forall c :: Permits(c, command) ==> c == Required(command)
  {
    forall c | Permits(c, command)
      ensures c == Required(command)
    {
      PermittedByOne(c, command);
    }
    PermittedByOne(Required(command), command);
  }

  datatype Life = Starting | Ready | Restarting | Degraded | ShuttingDown | Stopped

  datatype FailureKind =
    | IdentityFailure | LaunchFailure | NavigationFailure | InteractionFailure | ObservationMissing
    | CaptureFailure | ProtocolFailure | TimeoutFailure | ShutdownFailure

  datatype Snapshot = Snapshot(
    life: Life, pageEpoch: nat, currentOrigin: Option<Text>, restartCount: nat, lastFailure: Option<FailureKind>)

  const STARTING := Snapshot(Starting, 0, None, 0, None)

  datatype WorkerError =
    | QueueClosed
    | WorkerStopped
    | CapabilityDenied(capability: Capability)
    | Unavailable
    | InvalidInput
    | CommandTimeout(duration: nat)
    | StaleElement(elementEpoch: nat, currentEpoch: nat)
    | ContractViolation(contract: ContractError)
    | RuntimeFailed(kind: FailureKind)

  predicate ValidSelector(selector: Text) {
    selector != [] && |selector| <= MAX_SELECTOR_BYTES && !HasNul(selector)
  }

  predicate Bounded(text: Text, maximum: nat) {
    |text| <= maximum && !HasNul(text)
  }

  predicate ValidCookies(cookies: seq<Cookie>) {
    && 0 < |cookies| <= MAX_IMPORT_COOKIES
    && forall c :: c in cookies ==>
         && c.name != [] && Bounded(c.name, MAX_COOKIE_NAME_BYTES)
         && Bounded(c.value, MAX_COOKIE_VALUE_BYTES)
         && c.domain != [] && Bounded(c.domain, MAX_COOKIE_DOMAIN_BYTES)
         && Bounded(c.path, MAX_COOKIE_PATH_BYTES)
  }

  function ElementOf(command: Command): Option<ElementRef> {
    match command
    case ClickElement(e) => Some(e)
    case TypeElement(e, _) => Some(e)
    case SelectOption(e, _) => Some(e)
    case UploadFile(e, _) => Some(e)
    case ReadElementText(e) => Some(e)
    case _ => None
  }

  /** A text argument, the bytes it may have at most, and whether it may be empty. */
  datatype TextArgument = TextArgument(text: Text, maximum: nat, mayBeEmpty: bool)

  predicate Fits(argument: TextArgument) {
    && (argument.mayBeEmpty || argument.text != [])
    && |argument.text| <= argument.maximum
    && forall i :: 0 <= i < |argument.text| ==> argument.text[i] != 0
  }

  function TextArguments(command: Command): seq<TextArgument> {
    match command
    case KeyPress(key) => [TextArgument(key, 64, false)]
    case ResolveElement(selector) => [TextArgument(selector, 4_096, false)]
    case TypeElement(_, text) => [TextArgument(text, 65_536, true)]
    case SelectOption(_, value) => [TextArgument(value, 65_536, false)]
    case UploadFile(_, path) => [TextArgument(path, 4_096, false)]
    case Evaluate(script) => [TextArgument(script, 65_536, false)]
    case SwitchToTab(id) => [TextArgument(id, 1_024, false)]
    case _ => []
  }

  function CookieArguments(cookie: Cookie): seq<TextArgument> {
    [TextArgument(cookie.name, 4_096, false), TextArgument(cookie.value, 8_192, true),
     TextArgument(cookie.domain, 256, false), TextArgument(cookie.path, 4_096, true)]
  }

  predicate Coordinates(command: Command) {
    match command
    case ClickAt(x, y) => x.Finite? && y.Finite?
    case Wheel(x, y, dx, dy) => x.Finite? && y.Finite? && dx.Finite? && dy.Finite?
    case _ => true
  }

  /** A command names no element, or one of the current page. */
  predicate OnPage(command: Command, epoch: nat) {
    match command
    case ClickElement(e) => e.pageEpoch == epoch
    case TypeElement(e, _) => e.pageEpoch == epoch
    case SelectOption(e, _) => e.pageEpoch == epoch
    case UploadFile(e, _) => e.pageEpoch == epoch
    case ReadElementText(e) => e.pageEpoch == epoch
    case _ => true
  }

  /** What the worker accepts: numbers that are numbers, texts within their bounds, URLs its policy accepts. */
  predicate Acceptable(urlAccepted: Text -> bool, command: Command, epoch: nat) {
    && OnPage(command, epoch) && Coordinates(command)
    && (forall k :: 0 <= k < |TextArguments(command)| ==> Fits(TextArguments(command)[k]))
    && (command.Navigate? ==> urlAccepted(command.url))
    && (command.SetCookies? ==> CookiesFit(command.cookies))
  }

  predicate CookieFits(cookie: Cookie) {
    forall k :: 0 <= k < |CookieArguments(cookie)| ==> Fits(CookieArguments(cookie)[k])
  }

  predicate CookiesFit(cookies: seq<Cookie>) {
    1 <= |cookies| <= 512 && forall i :: 0 <= i < |cookies| ==> CookieFits(cookies[i])
  }

  /** The argument checks each command makes before its runtime call; the epoch check comes first. */
  function InputError(urlAccepted: Text -> bool, command: Command, epoch: nat): Option<WorkerError> {
    var element := ElementOf(command);
    if element.Some? && element.value.pageEpoch != epoch then Some(StaleElement(element.value.pageEpoch, epoch))
    else
      match command
      case ClickAt(x, y) => if x.Finite? && y.Finite? then None else Some(InvalidInput)
      case Wheel(x, y, dx, dy) =>
        if x.Finite? && y.Finite? && dx.Finite? && dy.Finite? then None else Some(InvalidInput)
      case KeyPress(key) => if key != [] && Bounded(key, MAX_KEY_BYTES) then None else Some(InvalidInput)
      case ResolveElement(selector) =>
        if ValidSelector(selector) then None else Some(ContractViolation(InvalidSelector))
      case TypeElement(_, text) => if Bounded(text, MAX_TEXT_BYTES) then None else Some(InvalidInput)
      case SelectOption(_, value) =>
        if value != [] && Bounded(value, MAX_TEXT_BYTES) then None else Some(InvalidInput)
      case UploadFile(_, path) =>
        if path != [] && Bounded(path, MAX_UPLOAD_PATH_BYTES) then None else Some(InvalidInput)
      case Evaluate(script) =>
        if script != [] && Bounded(script, MAX_SCRIPT_BYTES) then None else Some(InvalidInput)
      case Navigate(url) => if urlAccepted(url) then None else Some(InvalidInput)
      case SetCookies(cookies) => if ValidCookies(cookies) then None else Some(InvalidInput)
      case SwitchToTab(id) => if id != [] && Bounded(id, MAX_TAB_ID_BYTES) then None else Some(InvalidInput)
      case _ => None
  }

  lemma FitsText(argument: TextArgument)
    ensures Fits(argument) <==>
              (argument.mayBeEmpty || argument.text != []) && |argument.text| <= argument.maximum && !HasNul(argument.text)
  {
    if HasNul(argument.text) {
      var i :| 0 <= i < |argument.text| && argument.text[i] == 0;
    }
  }

  lemma FitsCookie(c: Cookie)
    ensures CookieFits(c) <==>
              && c.name != [] && Bounded(c.name, MAX_COOKIE_NAME_BYTES)
              && Bounded(c.value, MAX_COOKIE_VALUE_BYTES)
              && c.domain != [] && Bounded(c.domain, MAX_COOKIE_DOMAIN_BYTES)
              && Bounded(c.path, MAX_COOKIE_PATH_BYTES)
  {
    var a := CookieArguments(c);
    FitsText(a[0]);
    FitsText(a[1]);
    FitsText(a[2]);
    FitsText(a[3]);
    assert CookieFits(c) <==> Fits(a[0]) && Fits(a[1]) && Fits(a[2]) && Fits(a[3]);
  }

  lemma FitCookies(cookies: seq<Cookie>)
    ensures CookiesFit(cookies) <==> ValidCookies(cookies)
  {
    forall c
      ensures CookieFits(c) <==>
                && c.name != [] && Bounded(c.name, MAX_COOKIE_NAME_BYTES)
                && Bounded(c.value, MAX_COOKIE_VALUE_BYTES)
                && c.domain != [] && Bounded(c.domain, MAX_COOKIE_DOMAIN_BYTES)
                && Bounded(c.path, MAX_COOKIE_PATH_BYTES)
    {
      FitsCookie(c);
    }
    if CookiesFit(cookies) {
      assert forall c :: c in cookies ==> CookieFits(c);
    }
  }

  /** The checks refuse just what is not acceptable, each with its error. */
  lemma RefusedExactly(urlAccepted: Text -> bool, command: Command, epoch: nat)
    ensures InputError(urlAccepted, command, epoch).None? <==> Acceptable(urlAccepted, command, epoch)
    ensures InputError(urlAccepted, command, epoch).Some? ==>
              InputError(urlAccepted, command, epoch).value ==
                if !OnPage(command, epoch) then StaleElement(command.element.pageEpoch, epoch)
                else if command.ResolveElement? then ContractViolation(InvalidSelector)
                else InvalidInput
  {
    if TextArguments(command) != [] {
      FitsText(TextArguments(command)[0]);
    }
    if command.SetCookies? {
      FitCookies(command.cookies);
    }
  }
}
