/** Node ids and cross-node references (internal/domain/qualifiedref.go). */
module NodeRefs {
  import opened Options
  import opened Sequences
  import Uuids

  const MAX_NODE_ID_LEN: nat := 32

  predicate NodeChar(c: char) {
    'a' <= c <= 'z' || '0' <= c <= '9' || c == '-'
  }

  /** `ValidNodeID`: a DNS-safe label. */
  predicate ValidNodeId(s: string) {
    && 0 < |s| <= MAX_NODE_ID_LEN
    && s[0] != '-' && s[|s| - 1] != '-'
    && forall i :: 0 <= i < |s| ==> NodeChar(s[i])
  }

  datatype Ref = Ref(node: string, id: Uuids.Uuid)

  /** `ParseQualifiedRef`: a bare UUID names an object of this node. */
  function Parse(ref: string): (r: Option<Ref>) {
    var n := FirstAt(ref, ':');
    if n < |ref| then
      var id := Uuids.Parse(ref[n + 1..]);
      if id.None? || !ValidNodeId(ref[..n]) then None else Some(Ref(ref[..n], id.value))
    else
      var id := Uuids.Parse(ref);
      if id.None? then None else Some(Ref("", id.value))
  }

  /** `FormatQualifiedRef`. */
  function Format(r: Ref): (s: string) {
    if r.node == "" then Uuids.Format(r.id) else r.node + ":" + Uuids.Format(r.id)
  }

  lemma BareHasNoColon(id: Uuids.Uuid)
    ensures FirstAt(Uuids.Format(id), ':') == 36
  {
    Uuids.FormatChars(id);
    FirstAtIs(Uuids.Format(id), ':', 36);
  }

  /** Every reference that is formatted parses back. */
  lemma ParseFormat(r: Ref)
    requires r.node == "" || ValidNodeId(r.node)
    ensures Parse(Format(r)) == Some(r)
  {
    Uuids.ParseFormat(r.id);
    if r.node == "" {
      BareHasNoColon(r.id);
    } else {
      FirstBehind(r.node, ':', Uuids.Format(r.id));
      var s := Format(r);
      assert s[..|r.node|] == r.node && s[|r.node| + 1..] == Uuids.Format(r.id);
    }
  }

  /** A DNS label: 1 to 32 lower-case letters, digits and dashes, none of them a dash at either end. */
  ghost predicate Label(s: string) {
    1 <= |s| <= 32 && s[0] != '-' && s[|s| - 1] != '-' && forall c :: c in s ==> 'a' <= c <= 'z' || '0' <= c <= '9' || c == '-'
  }

  lemma LabelIff(s: string)
    ensures ValidNodeId(s) <==> Label(s)
  {
    assert (forall i :: 0 <= i < |s| ==> NodeChar(s[i])) <==> forall c :: c in s ==> NodeChar(c);
    assert forall c :: NodeChar(c) <==> 'a' <= c <= 'z' || '0' <= c <= '9' || c == '-';
  }

  /** The reference is a label and a UUID with a colon between, or a UUID alone. */
  ghost predicate Spells(ref: string, r: Ref, text: string) {
    && Uuids.Parse(text) == Some(r.id)
    && (if ':' in ref then ref == r.node + ":" + text && Label(r.node) else ref == text && r.node == "")
  }

  /** What is parsed: exactly these, and everything else is refused. */
  lemma ParseIff(ref: string, r: Ref)
    ensures Parse(ref) == Some(r) <==> exists text :: Spells(ref, r, text)
  {
    var n := FirstAt(ref, ':');
    assert ':' in ref <==> n < |ref|;
    if n < |ref| {
      LabelIff(ref[..n]);
      assert ref == ref[..n] + ":" + ref[n + 1..];
      if text :| Spells(ref, r, text) {
        LabelIff(r.node);
        FirstBehind(r.node, ':', text);
        assert ref[..n] == r.node && ref[n + 1..] == text;
      }
      if Parse(ref) == Some(r) {
        assert Spells(ref, r, ref[n + 1..]);
      }
    } else if Parse(ref) == Some(r) {
      assert Spells(ref, r, ref);
    }
  }

  /** The UUID part of a reference. */
  function IdText(ref: string): (s: string) {
    var n := FirstAt(ref, ':');
    if n < |ref| then ref[n + 1..] else ref
  }

  /**
    A parsed reference is formatted back to itself exactly when its UUID is
    written in the 36-character lower-case form.
   */
  lemma FormatParsedIff(ref: string)
    requires Parse(ref).Some?
    ensures Format(Parse(ref).value) == ref <==> |IdText(ref)| == 36 && Uuids.LowerCase(IdText(ref))
  {
    var n := FirstAt(ref, ':');
    Uuids.FormatParsed(IdText(ref));
    if n < |ref| {
      var text := Uuids.Format(Parse(ref).value.id);
      assert ref == ref[..n] + ":" + ref[n + 1..];
      var head := ref[..n] + ":";
      assert head + text == head + ref[n + 1..] <==> text == ref[n + 1..] by {
        SplitLeft(head, text);
        SplitLeft(head, ref[n + 1..]);
      }
    }
  }
}
