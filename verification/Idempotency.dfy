/** When a replayed request agrees with the run its idempotency key already names. */
module Idempotency {
  import opened Prelude
  import opened JsonText
  import opened Lifecycle
  import opened CanonicalJson
  import opened Sorting
  import Fingerprint

  const ID_KEY: Text := [0x69, 0x64]
  const TYPE_KEY: Text := [0x74, 0x79, 0x70, 0x65]

  /** The identity of a target; its label and metadata do not count. */
  function TargetValue(target: Option<Target>): Json {
    match target
    case None => Json.Null
    case Some(t) => Obj([Entry(ID_KEY, Str(t.id)), Entry(TYPE_KEY, Str(t.kind))])
  }

  predicate SameTarget(a: Option<Target>, b: Option<Target>) {
    match (a, b)
    case (None, None) => true
    case (Some(x), Some(y)) => x.id == y.id && x.kind == y.kind
    case _ => false
  }

  /** The check made on a replay: no error, or the conflict it raises. */
  function MatchRequest(run: ActionRun, input: Json, target: Option<Target>, style: Style)
    : Option<ErrorCode>
  {
    if Print(run.input, style) != Print(input, style) then Some(IDEMPOTENCY_CONFLICT)
    else if Print(TargetValue(run.target), style) == Print(TargetValue(target), style) then None
    else Some(IDEMPOTENCY_CONFLICT)
  }

  lemma TargetValueFaithful(a: Option<Target>, b: Option<Target>)
    ensures WellFormed(TargetValue(a))
    ensures Same(TargetValue(a), TargetValue(b)) <==> SameTarget(a, b)
  {
    if a.Some? {
      var es := TargetValue(a).entries;
      assert es == [es[0], es[1]];
      if b.Some? {
        var fs := TargetValue(b).entries;
        assert es[0] in es && es[1] in es;
        assert fs[0] in fs && fs[1] in fs;
        assert fs == [fs[0], fs[1]];
        assert ID_KEY[0] != TYPE_KEY[0];
      }
    }
  }

  /** A replay is accepted exactly for the same input up to key order and the same target identity. */
  lemma MatchDecidesSameRequest(run: ActionRun, input: Json, target: Option<Target>, style: Style)
    requires FaithfulNumbers(style) && Consistent(style.compareKeys) && KeysApart(run.input, style)
    requires WellFormed(run.input) && WellFormed(input)
    ensures MatchRequest(run, input, target, style).None?
      <==> Same(run.input, input) && SameTarget(run.target, target)
  {
    hide Print, Same, WellFormed, KeysApart, FaithfulNumbers;
    EqualTextIffSame(run.input, input, style);
    TargetValueFaithful(run.target, target);
    if Print(TargetValue(run.target), style) == Print(TargetValue(target), style) {
      EqualTextIsSound(TargetValue(run.target), TargetValue(target), style);
    }
  }

  /**
   A replay whose input storage reordered is never refused, exactly when in every object of the
   stored input, at every depth, no two different keys tie.
   */
  lemma ReorderedReplaysAccepted(run: ActionRun, style: Style)
    requires FaithfulNumbers(style) && Consistent(style.compareKeys) && WellFormed(run.input)
    ensures (forall input | WellFormed(input) && Same(run.input, input) ::
               MatchRequest(run, input, run.target, style).None?)
      <==> KeysApart(run.input, style)
  {
    hide Print, Same, WellFormed, KeysApart, FaithfulNumbers;
    OrderIndependentIffKeysApart(run.input, style);
    forall input | WellFormed(input) && Same(run.input, input)
      ensures MatchRequest(run, input, run.target, style).None?
        <==> Print(run.input, style) == Print(input, style)
    {
    }
  }

  /** With any comparator, an accepted replay really asks for the same thing. */
  lemma AcceptedReplayIsSame(run: ActionRun, input: Json, target: Option<Target>, style: Style)
    requires FaithfulNumbers(style)
    requires MatchRequest(run, input, target, style).None?
    ensures Same(run.input, input) && SameTarget(run.target, target)
  {
    EqualTextIsSound(run.input, input, style);
    TargetValueFaithful(run.target, target);
    EqualTextIsSound(TargetValue(run.target), TargetValue(target), style);
  }

  /** With any comparator and any number rendering, the identical input sent again is accepted. */
  lemma ResentIsAccepted(run: ActionRun, target: Option<Target>, style: Style)
    requires SameTarget(run.target, target)
    ensures MatchRequest(run, run.input, target, style).None?
  {
    assert TargetValue(run.target) == TargetValue(target);
  }

  const HASH_PREFIX: Text := [0x66, 0x6E, 0x76, 0x31, 0x61, 0x36, 0x34, 0x3A]

  function InputHash(input: Json, style: Style): Text {
    HASH_PREFIX + Fingerprint.Render(Fingerprint.Fold(Fingerprint.OFFSET, Print(input, style)))
  }

  /** The stored hash names its algorithm and continues with the fingerprint of the canonical text. */
  lemma InputHashForm(input: Json, style: Style)
    ensures exists digits: Text ::
      && InputHash(input, style) == Ascii("fnv1a64:") + digits && |digits| == 16
      && Fingerprint.ReadHex(digits) == Fingerprint.Fold(Fingerprint.OFFSET, Print(input, style))
  {
    hide Print, Fingerprint.Fold, Fingerprint.Render, Fingerprint.ReadHex, HexValue;
    var h := Fingerprint.Fold(Fingerprint.OFFSET, Print(input, style));
    Fingerprint.RenderFaithful(h);
    assert HASH_PREFIX == Ascii("fnv1a64:");
    assert InputHash(input, style) == Ascii("fnv1a64:") + Fingerprint.Render(h);
  }

  /** The stored fingerprint survives any reordering of keys by storage. */
  lemma InputHashIgnoresKeyOrder(v: Json, w: Json, style: Style)
    requires FaithfulNumbers(style) && Consistent(style.compareKeys) && KeysApart(v, style)
    requires WellFormed(v) && WellFormed(w) && Same(v, w)
    ensures InputHash(v, style) == InputHash(w, style)
  {
    SamePrintsAlike(v, w, style);
  }
}
