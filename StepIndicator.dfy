/** The wizard's step indicator: for each of the three steps, whether it is
    active, completed or last, how its circle and title are shown and the
    colour of the connector that follows it, all derived from `currentStep`. */
module StepIndicator {
  import opened Wrappers

  datatype Step = Step(number: int, title: string)

  /** The three steps, in order. */
  const Steps: seq<Step> := [
    Step(1, "ข้อมูลส่วนตัว"),
    Step(2, "ถ่ายภาพใบหน้า"),
    Step(3, "เสร็จสิ้น")
  ]

  datatype Circle = ActiveCircle | CompletedCircle | PendingCircle
  datatype Colour = Green | Grey

  datatype StepView = StepView(
    number: int,
    isActive: bool,
    isCompleted: bool,
    isLast: bool,
    circle: Circle,
    /** A check mark instead of the step's icon. */
    showsCheck: bool,
    titleHighlighted: bool,
    /** The connector after the step, absent after the last one. */
    connector: Option<Colour>)

  /** The body of the `map` callback for the step at `index`. */
  function ViewOf(currentStep: int, step: Step, index: nat): (v: StepView)
    ensures v.number == step.number
  {
    var isActive := currentStep == step.number;
    var isCompleted := currentStep > step.number;
    var isLast := index == |Steps| - 1;
    StepView(
      step.number, isActive, isCompleted, isLast,
      if isActive then ActiveCircle else if isCompleted then CompletedCircle else PendingCircle,
      isCompleted,
      isActive || isCompleted,
      if isLast then None else Some(if isCompleted then Green else Grey))
  }

  /** `steps.map(...)`. */
  function Views(currentStep: int): (vs: seq<StepView>)
    ensures |vs| == |Steps|
    ensures forall i :: 0 <= i < |vs| ==> vs[i] == ViewOf(currentStep, Steps[i], i)
  {
    seq(|Steps|, i requires 0 <= i < |Steps| => ViewOf(currentStep, Steps[i], i))
  }

  /** Step `i` (0-based) is active iff the current step is its number, and
      completed iff the current step is past it; never both. */
  lemma StatusOfStep(currentStep: int, i: int)
    requires 0 <= i < 3
    ensures Views(currentStep)[i].isActive <==> currentStep == i + 1
    ensures Views(currentStep)[i].isCompleted <==> currentStep > i + 1
    ensures !(Views(currentStep)[i].isActive && Views(currentStep)[i].isCompleted)
  {
  }

  /** At most one step is active, and none when the current step is outside 1..3. */
  lemma AtMostOneActive(currentStep: int, i: int, j: int)
    requires 0 <= i < 3 && 0 <= j < 3
    requires Views(currentStep)[i].isActive && Views(currentStep)[j].isActive
    ensures i == j
    ensures 1 <= currentStep <= 3
  {
  }

  lemma NoneActiveOutside(currentStep: int)
    requires currentStep < 1 || currentStep > 3
    ensures forall i :: 0 <= i < 3 ==> !Views(currentStep)[i].isActive
  {
  }

  /** Completed steps form a prefix, the active step (if any) comes right
      after them, and their number is the current step minus one, clamped to 0..3. */
  lemma CompletedPrefix(currentStep: int)
    ensures forall i, j :: 0 <= i <= j < 3 && Views(currentStep)[j].isCompleted ==> Views(currentStep)[i].isCompleted
    ensures forall i, j :: 0 <= j < i < 3 && Views(currentStep)[i].isActive ==> Views(currentStep)[j].isCompleted
    ensures CompletedCount(Views(currentStep)) == if currentStep <= 1 then 0 else if currentStep >= 4 then 3 else currentStep - 1
  {
    var vs := Views(currentStep);
    assert vs[1..][1..] == vs[2..] && vs[2..][1..] == [];
    assert CompletedCount(vs[2..]) == if vs[2].isCompleted then 1 else 0;
    assert CompletedCount(vs[1..]) == (if vs[1].isCompleted then 1 else 0) + CompletedCount(vs[2..]);
    assert CompletedCount(vs) == (if vs[0].isCompleted then 1 else 0) + CompletedCount(vs[1..]);
  }

  /** The number of completed steps. */
  function CompletedCount(vs: seq<StepView>): (n: nat)
    ensures n <= |vs|
    ensures n == |vs| <==> forall i :: 0 <= i < |vs| ==> vs[i].isCompleted
  {
    if |vs| == 0 then 0 else (if vs[0].isCompleted then 1 else 0) + CompletedCount(vs[1..])
  }

  /** Every step but the last has a connector, green exactly when the step is completed. */
  lemma Connectors(currentStep: int, i: int)
    requires 0 <= i < 3
    ensures Views(currentStep)[i].isLast <==> i == 2
    ensures Views(currentStep)[i].connector.Some? <==> i < 2
    ensures i < 2 ==> (Views(currentStep)[i].connector == Some(Green) <==> Views(currentStep)[i].isCompleted)
  {
  }

  /** The circle is blue for the active step, green for a completed one,
      grey otherwise; a check replaces the icon exactly on completed steps. */
  lemma CircleOfStep(currentStep: int, i: int)
    requires 0 <= i < 3
    ensures Views(currentStep)[i].circle == ActiveCircle <==> currentStep == i + 1
    ensures Views(currentStep)[i].circle == CompletedCircle <==> currentStep > i + 1
    ensures Views(currentStep)[i].showsCheck <==> Views(currentStep)[i].circle == CompletedCircle
    ensures Views(currentStep)[i].titleHighlighted <==> currentStep >= i + 1
  {
  }
}
