/** The fingerprint of a call's arguments, and what a run comes to when it cannot be computed. */
module Fingerprint {
  import opened Wrappers
  import opened Canonical
  import opened CanonicalDecoder
  import opened CanonicalGraph
  import opened ArgumentCycles
  import opened JsonMeaning
  import opened Pipeline
  import opened PipelineLaws

  /** A digest in hexadecimal of a text. */
  type Hash = Units -> string

  /** The digest of the canonical text, or an exception when the recursion does not end. */
  ghost predicate IsFingerprint(hash: Hash, h: Heap, args: Value, fp: Result<string, string>)
    requires ValidHeap(h) && ValidValue(h, args)
  {
    && (fp.Success? ==> Printable(h, args))
    && forall t | ArgsUnfold(h, args, t) :: fp == Success("sha256:" + hash(Print(t)))
  }

  method ArgsFingerprint(hash: Hash, h: Heap, args: Value) returns (fp: string)
    requires ValidHeap(h) && ValidValue(h, args) && Printable(h, args)
    ensures IsFingerprint(hash, h, args, Success(fp))
  {
    var canon := ArgsText(h, args);
    return "sha256:" + hash(canon);
  }

  /** Arguments have a canonical text exactly when they lead to no cycle of arrays only. */
  lemma PrintableIffNoCycleInReach(h: Heap, args: Value)
    requires ValidHeap(h) && ValidValue(h, args)
    ensures Printable(h, args) <==> !LeadsToArrayCycle(h, args)
  {
    EndsIffNoCycleInReach(h, args);
    if args.VNull? || args.VUndefined? {
      assert ArgsUnfold(h, args, Obj(map[]));
    } else {
      assert forall t :: ArgsUnfold(h, args, t) == Unfolds(h, args, {}, t);
    }
  }

  lemma ListingKeepsUnfolding(h: Heap, g: Heap, args: Value, t: Tree)
    requires ValidHeap(h) && ValidHeap(g) && SameUpToListing(h, g) && ValidValue(h, args) && ArgsUnfold(h, args, t)
    ensures ArgsUnfold(g, args, t)
  {
    if !args.VNull? && !args.VUndefined? {
      ListingDoesNotMatter(h, g, args, {}, t);
    }
  }

  /** The same arguments have the same fingerprint, in whatever order their objects list their keys. */
  lemma ListingKeepsFingerprint(
      hash: Hash, h: Heap, g: Heap, args: Value, fp: Result<string, string>, other: Result<string, string>)
    requires ValidHeap(h) && ValidHeap(g) && ValidValue(h, args)
    requires SameUpToListing(h, g)
    requires IsFingerprint(hash, h, args, fp) && IsFingerprint(hash, g, args, other)
    ensures fp.Success? == other.Success? && (fp.Success? ==> fp == other)
  {
    if fp.Success? {
      var t :| ArgsUnfold(h, args, t);
      ListingKeepsUnfolding(h, g, args, t);
    }
    if other.Success? {
      var t :| ArgsUnfold(g, args, t);
      ListingKeepsUnfolding(g, h, args, t);
    }
  }

  lemma JsonIsFingerprinted(hash: Hash, h: Heap, args: Value, j: Tree, fp: Result<string, string>)
    requires ValidHeap(h) && ValidValue(h, args) && Means(h, args, j) && !args.VNull?
    requires IsFingerprint(hash, h, args, fp)
    ensures fp == Success("sha256:" + hash(Print(j)))
  {
    MeaningUnfolds(h, args, {}, j);
    assert ArgsUnfold(h, args, j);
  }

  /** With a digest that tells texts apart, two calls' fingerprints are the same exactly when their arguments are. */
  lemma FingerprintTellsArguments(
      hash: Hash, h: Heap, args: Value, fp: Result<string, string>,
      g: Heap, other: Value, otherFp: Result<string, string>)
    requires ValidHeap(h) && ValidValue(h, args) && IsFingerprint(hash, h, args, fp)
    requires ValidHeap(g) && ValidValue(g, other) && IsFingerprint(hash, g, other, otherFp)
    requires IsJson(h, args) && IsJson(g, other) && !args.VNull? && !other.VNull?
    requires forall x, y :: hash(x) == hash(y) ==> x == y
    ensures fp == otherFp <==> SameJson(h, args, g, other)
  {
    var i :| Means(h, args, i);
    var j :| Means(g, other, j);
    JsonIsFingerprinted(hash, h, args, i, fp);
    JsonIsFingerprinted(hash, g, other, j, otherFp);
    SuffixesDiffer("sha256:", hash(Print(i)), hash(Print(j)));
    MeaningIsPlain(h, args, i);
    MeaningIsPlain(g, other, j);
    PlainTextIsInjective(i, j);
    SameIfMeaningIs(h, args, i, g, other, j);
  }

  lemma SuffixesDiffer(pre: string, a: string, b: string)
    ensures pre + a == pre + b <==> a == b
  {
    assert (pre + a)[|pre|..] == a && (pre + b)[|pre|..] == b;
  }

  /** Missing arguments are an empty object. */
  lemma NullishArgsAreEmpty(h: Heap, args: Value, t: Tree)
    requires ValidHeap(h) && (args.VNull? || args.VUndefined?) && ArgsUnfold(h, args, t)
    ensures Print(t) == Ascii("{}")
  {
    EmptyObjectText();
    assert Ascii("{}") == [LEFT_BRACE] + [] + [RIGHT_BRACE];
  }

  /**
   A call on these arguments attempts exactly one audit exactly when the identity is resolved, the
   arguments lead to no cycle of arrays only, and the handler is not let through and returns for the
   redaction hook to throw.
   */
  lemma AuditedUnlessCyclic(deps: Deps, log: Log, call: ToolCall, hash: Hash, h: Heap, args: Value)
    requires ValidHeap(h) && ValidValue(h, args) && IsFingerprint(hash, h, args, call.fingerprint)
    ensures IsRequest(deps, log, call) <==> deps.identity(log, call.extra).Success? && !LeadsToArrayCycle(h, args)
    ensures |Audits(Run(deps, log, call).0)| == 1 <==>
      && IsRequest(deps, log, call)
      && var req := RequestMade(deps, log, call);
         !DecidedThenThrows(deps, AfterPolicy(deps, log, call.extra, req), req,
                            DecisionMade(deps, log + [IdentityCall(call.extra)], req))
  {
    PrintableIffNoCycleInReach(h, args);
    AuditedOnce(deps, log, call);
    if Printable(h, args) {
      var t :| ArgsUnfold(h, args, t);
    }
  }

  /**
   Whatever the dependencies do, a call whose argument is an array that holds itself leaves no audit
   event: its fingerprint throws before the policy is asked.
   */
  lemma SelfHoldingArrayIsNotAudited(deps: Deps, log: Log, call: ToolCall, hash: Hash)
    requires ValidHeap(SELF_HOLDING) && IsFingerprint(hash, SELF_HOLDING, VRef(0), call.fingerprint)
    ensures var (all, r) := Run(deps, log, call); r.Thrown? && Audits(all) == [] && all == [IdentityCall(call.extra)]
  {
    SelfHoldingArrayDoesNotEnd();
    assert forall t :: ArgsUnfold(SELF_HOLDING, VRef(0), t) == Unfolds(SELF_HOLDING, VRef(0), {}, t);
    assert call.fingerprint.Failure?;
    NoAudits([IdentityCall(call.extra)]);
  }
}
