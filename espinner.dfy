/**
 * The spinner widget's model: a value-semantics state machine that records
 * whether the background task has finished and with which error, reacts to
 * messages, and renders one status line.
 *
 * The terminal toolkit is foreign code: rendering a styled string, the inner
 * spinner's current frame and its own update step are passed in as a Toolkit
 * of functions. Errors are their messages, None standing for nil.
 */
module ESpinner {
  import opened Wrappers
  import Styles

  /** The background task: its outcome is an error or None. */
  type SpinnerTask = () -> Option<string>

  /** An animation: its frames and the interval between them in milliseconds. */
  datatype Spinner = Spinner(frames: seq<string>, intervalMs: nat)

  /** The animation "Line": | / - \ at ten frames per second. */
  const Line := Spinner(["|", "/", "-", "\\"], 100)

  /** The inner animated spinner; its animation state is opaque. */
  datatype InnerSpinner = InnerSpinner(spinner: Spinner, style: Styles.Style, animation: nat)

  /** The three line styles. */
  datatype SpinnerStyle = SpinnerStyle(
    progressStyle: Styles.Style,
    successStyle: Styles.Style,
    failureStyle: Styles.Style)

  /** The default line styles: faint white progress, green success, bold red failure. */
  const SpinnerStyleDefault := SpinnerStyle(
    Styles.Style({"foreground:15", "faint"}, None),
    Styles.Style({"foreground:2"}, None),
    Styles.Style({"foreground:1", "bold"}, None))

  datatype Key = CtrlC | OtherKey(name: string)

  /** The messages the model receives. */
  datatype Msg =
    | Stop(err: Option<string>)   // the task finished with this error
    | KeyPress(key: Key)          // a key was pressed
    | Other(tag: string)          // anything else, e.g. an animation tick

  /** The command returned with the new model. */
  datatype Cmd = Quit | NoCmd | Command(tag: string)

  /** The toolkit functions the model calls and cannot see into. */
  datatype Toolkit = Toolkit(
    render: (Styles.Style, string) -> string,
    innerView: InnerSpinner -> string,
    innerUpdate: (InnerSpinner, Msg) -> (InnerSpinner, Cmd))

  datatype SpinnerModel = SpinnerModel(
    title: string,
    task: SpinnerTask,
    inner: InnerSpinner,
    style: SpinnerStyle,
    err: Option<string>,
    done: bool)
  {
    /** Sets the line styles; nothing else changes. */
    function WithStyle(s: SpinnerStyle): (m: SpinnerModel)
      ensures m.style == s
      ensures m.title == title && m.task == task && m.inner == inner && m.err == err && m.done == done
    {
      this.(style := s)
    }

    /** Sets the animation of the inner spinner; nothing else changes. */
    function WithSpinner(s: Spinner): (m: SpinnerModel)
      ensures m.inner.spinner == s
      ensures m.inner.style == inner.style && m.inner.animation == inner.animation
      ensures m.title == title && m.task == task && m.style == style && m.err == err && m.done == done
    {
      this.(inner := inner.(spinner := s))
    }

    /** Sets the style of the inner spinner; nothing else changes. */
    function WithSpinnerStyle(s: Styles.Style): (m: SpinnerModel)
      ensures m.inner.style == s
      ensures m.inner.spinner == inner.spinner && m.inner.animation == inner.animation
      ensures m.title == title && m.task == task && m.style == style && m.err == err && m.done == done
    {
      this.(inner := inner.(style := s))
    }

    /** The recorded error. */
    function Err(): Option<string>
    {
      err
    }
  }

  /** A new model: the Line animation, default styles, not done, no error. */
  function NewSpinner(title: string, task: SpinnerTask): (m: SpinnerModel)
    ensures m.title == title && m.task == task
    ensures !m.done && m.err == None
    ensures m.style == SpinnerStyleDefault && m.inner.spinner == Line
    ensures m.inner.style == Styles.Plain
  {
    SpinnerModel(title, task, InnerSpinner(Line, Styles.Plain, 0), SpinnerStyleDefault, None, false)
  }

  /**
   * Reacts to a message: Ctrl-C quits with the model as it is; a stop
   * message marks the model done, records a present error and quits;
   * anything else (other keys included) goes to the inner spinner.
   */
  function Update(m: SpinnerModel, msg: Msg, tk: Toolkit): (r: (SpinnerModel, Cmd))
    ensures r.0.done == (m.done || msg.Stop?)
    ensures r.0.title == m.title && r.0.task == m.task && r.0.style == m.style
    ensures msg == KeyPress(CtrlC) ==> r == (m, Quit)
    ensures msg.Stop? ==>
              r.1 == Quit && r.0.inner == m.inner &&
              r.0.err == (if msg.err.Some? then msg.err else m.err)
    ensures !msg.Stop? && msg != KeyPress(CtrlC) ==>
              r.0.err == m.err && r.0.done == m.done &&
              (r.0.inner, r.1) == tk.innerUpdate(m.inner, msg)
  {
    match msg
    case KeyPress(CtrlC) => (m, Quit)
    case Stop(e) =>
      var m' := m.(done := true);
      (if e.Some? then m'.(err := e) else m', Quit)
    case _ =>
      var (inner', cmd) := tk.innerUpdate(m.inner, msg);
      (m.(inner := inner'), cmd)
  }

  /** The status line, always followed by exactly one line terminator. */
  function View(m: SpinnerModel, tk: Toolkit): (s: string)
    ensures |s| >= 1 && s[|s| - 1] == '\n'
    ensures !m.done ==>
              s[..|s| - 1] == tk.render(m.style.progressStyle, tk.innerView(m.inner) + " " + m.title)
    ensures m.done && m.err.Some? ==>
              s[..|s| - 1] == tk.render(m.style.failureStyle, "* " + m.title + " ... Failed: " + m.err.value)
    ensures m.done && m.err.None? ==>
              s[..|s| - 1] == tk.render(m.style.successStyle, "* " + m.title + " ... Done")
  {
    var line :=
      if !m.done then tk.render(m.style.progressStyle, tk.innerView(m.inner) + " " + m.title)
      else if m.err.Some? then tk.render(m.style.failureStyle, "* " + m.title + " ... Failed: " + m.err.value)
      else tk.render(m.style.successStyle, "* " + m.title + " ... Done");
    assert (line + "\n")[..|line|] == line;
    line + "\n"
  }

  // ---------------------------------------------------------------------
  // Sequences of messages

  /** The model after handling the messages in order. */
  function Steps(m: SpinnerModel, msgs: seq<Msg>, tk: Toolkit): SpinnerModel
    decreases |msgs|
  {
    if |msgs| == 0 then m else Steps(Update(m, msgs[0], tk).0, msgs[1..], tk)
  }

  /** Once done, a model stays done whatever messages follow. */
  lemma {:induction false} DoneIsMonotone(m: SpinnerModel, msgs: seq<Msg>, tk: Toolkit)
    requires m.done
    ensures Steps(m, msgs, tk).done
    decreases |msgs|
  {
    if |msgs| > 0 {
      DoneIsMonotone(Update(m, msgs[0], tk).0, msgs[1..], tk);
    }
  }

  /** A recorded error is never cleared, only replaced by a later present one. */
  lemma {:induction false} ErrorIsSticky(m: SpinnerModel, msgs: seq<Msg>, tk: Toolkit)
    requires m.err.Some?
    ensures Steps(m, msgs, tk).err.Some?
    decreases |msgs|
  {
    if |msgs| > 0 {
      ErrorIsSticky(Update(m, msgs[0], tk).0, msgs[1..], tk);
    }
  }

  /** Without a stop message neither the done flag nor the error changes. */
  lemma {:induction false} NoStopNoResult(m: SpinnerModel, msgs: seq<Msg>, tk: Toolkit)
    requires forall i :: 0 <= i < |msgs| ==> !msgs[i].Stop?
    ensures Steps(m, msgs, tk).done == m.done && Steps(m, msgs, tk).err == m.err
    ensures Steps(m, msgs, tk).title == m.title
    decreases |msgs|
  {
    if |msgs| > 0 {
      NoStopNoResult(Update(m, msgs[0], tk).0, msgs[1..], tk);
    }
  }

  /**
   * Interrupting a fresh model before the task finishes: the model reports
   * no error and is still showing progress.
   */
  lemma InterruptBeforeCompletion(title: string, task: SpinnerTask, ticks: seq<Msg>, tk: Toolkit)
    requires forall i :: 0 <= i < |ticks| ==> !ticks[i].Stop?
    ensures var m := Steps(NewSpinner(title, task), ticks, tk);
      Update(m, KeyPress(CtrlC), tk) == (m, Quit) && m.Err() == None && !m.done
  {
    NoStopNoResult(NewSpinner(title, task), ticks, tk);
  }

  /** The final line after the task finishes, with and without an error. */
  lemma FinalLine(m: SpinnerModel, e: Option<string>, tk: Toolkit)
    ensures Update(m, Stop(e), tk).1 == Quit
    ensures e.Some? ==>
              var m' := Update(m, Stop(e), tk).0;
              m'.Err() == e &&
              View(m', tk) == tk.render(m.style.failureStyle, "* " + m.title + " ... Failed: " + e.value) + "\n"
    ensures e.None? && m.err.None? ==>
              var m' := Update(m, Stop(e), tk).0;
              m'.Err() == None &&
              View(m', tk) == tk.render(m.style.successStyle, "* " + m.title + " ... Done") + "\n"
  {
  }
}
