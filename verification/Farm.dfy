/**
 * The farm of program links (storeShare and linkPrograms of site/js/boot.js and store.js), as a map from name to
 * package.
 */
module Farm {
  import opened Prelude

  datatype Precedence = Replace | Keep

  /** Program name to the basename of the package its link leads to. */
  type Links = map<string, string>

  /** What each written path offers. */
  type Offers = map<string, seq<string>>

  function Offered(offers: Offers, basename: string): seq<string> {
    if basename in offers then offers[basename] else []
  }

  predicate Offering(offers: Offers, basename: string, name: string) {
    name in Offered(offers, basename)
  }

  /** One package's programs linked in. */
  function Linked(links: Links, offers: Offers, basename: string, precedence: Precedence): Links {
    links + map name | name in Offered(offers, basename) && (precedence.Replace? || name !in links) :: basename
  }

  function LinkedEach(links: Links, offers: Offers, basenames: seq<string>, precedence: Precedence): Links
    decreases |basenames|
  {
    if basenames == [] then links
    else LinkedEach(Linked(links, offers, basenames[0], precedence), offers, basenames[1..], precedence)
  }

  function Others(basenames: seq<string>, roots: seq<string>): seq<string>
    decreases |basenames|
  {
    if basenames == [] then []
    else (if basenames[0] in roots then [] else [basenames[0]]) + Others(basenames[1..], roots)
  }

  /** The selected packages as the precedence says, then each dependency, which keeps whatever link there is. */
  function LinkedAll(links: Links, offers: Offers, basenames: seq<string>, roots: seq<string>,
                     precedence: Precedence): Links
  {
    LinkedEach(LinkedEach(links, offers, roots, precedence), offers, Others(basenames, roots), Keep)
  }

  // ---------- who wins a name ----------

  /** The first package of a list offering a name. */
  function First(offers: Offers, basenames: seq<string>, name: string): Option<string>
    decreases |basenames|
  {
    if basenames == [] then None
    else if Offering(offers, basenames[0], name) then Some(basenames[0])
    else First(offers, basenames[1..], name)
  }

  /** The last package of a list offering a name. */
  function Last(offers: Offers, basenames: seq<string>, name: string): Option<string>
    decreases |basenames|
  {
    if basenames == [] then None
    else
      var later := Last(offers, basenames[1..], name);
      if later.Some? then later
      else if Offering(offers, basenames[0], name) then Some(basenames[0]) else None
  }

  function LinkOf(links: Links, name: string): Option<string> {
    if name in links then Some(links[name]) else None
  }

  function Or(a: Option<string>, b: Option<string>): Option<string> {
    if a.Some? then a else b
  }

  lemma {:induction false} FirstMeans(offers: Offers, basenames: seq<string>, name: string)
    ensures match First(offers, basenames, name)
      case Some(b) => exists i :: 0 <= i < |basenames| && basenames[i] == b && Offering(offers, b, name)
                                  && forall j :: 0 <= j < i ==> !Offering(offers, basenames[j], name)
      case None => forall b :: b in basenames ==> !Offering(offers, b, name)
    decreases |basenames|
  {
    if basenames != [] {
      var rest := basenames[1..];
      FirstMeans(offers, rest, name);
      if Offering(offers, basenames[0], name) {
        assert basenames[0] == First(offers, basenames, name).value;
      } else if First(offers, rest, name).Some? {
        var i :| 0 <= i < |rest| && rest[i] == First(offers, rest, name).value && Offering(offers, rest[i], name)
                 && forall j :: 0 <= j < i ==> !Offering(offers, rest[j], name);
        assert basenames[i + 1] == rest[i];
        forall j | 0 <= j < i + 1 ensures !Offering(offers, basenames[j], name) {
          assert j > 0 ==> basenames[j] == rest[j - 1];
        }
      }
    }
  }

  lemma {:induction false} LastMeans(offers: Offers, basenames: seq<string>, name: string)
    ensures match Last(offers, basenames, name)
      case Some(b) => exists i :: 0 <= i < |basenames| && basenames[i] == b && Offering(offers, b, name)
                                  && forall j :: i < j < |basenames| ==> !Offering(offers, basenames[j], name)
      case None => forall b :: b in basenames ==> !Offering(offers, b, name)
    decreases |basenames|
  {
    if basenames != [] {
      var rest := basenames[1..];
      LastMeans(offers, rest, name);
      if Last(offers, rest, name).Some? {
        var i :| 0 <= i < |rest| && rest[i] == Last(offers, rest, name).value && Offering(offers, rest[i], name)
                 && forall j :: i < j < |rest| ==> !Offering(offers, rest[j], name);
        assert basenames[i + 1] == rest[i];
        forall j | i + 1 < j < |basenames| ensures !Offering(offers, basenames[j], name) {
          assert basenames[j] == rest[j - 1];
        }
      } else {
        forall j | 0 < j < |basenames| ensures !Offering(offers, basenames[j], name) {
          assert basenames[j] == rest[j - 1] && rest[j - 1] in rest;
        }
        assert Last(offers, basenames, name).Some? ==> basenames[0] == Last(offers, basenames, name).value;
      }
    }
  }

  /** Keeping never alters a link; a free name goes to the first that offers it. */
  lemma {:induction false} KeepWinner(links: Links, offers: Offers, basenames: seq<string>, name: string)
    ensures LinkOf(LinkedEach(links, offers, basenames, Keep), name) ==
      Or(LinkOf(links, name), First(offers, basenames, name))
    decreases |basenames|
  {
    if basenames != [] {
      KeepWinner(Linked(links, offers, basenames[0], Keep), offers, basenames[1..], name);
    }
  }

  /** Replacing gives a name to the last that offers it. */
  lemma {:induction false} ReplaceWinner(links: Links, offers: Offers, basenames: seq<string>, name: string)
    ensures LinkOf(LinkedEach(links, offers, basenames, Replace), name) ==
      Or(Last(offers, basenames, name), LinkOf(links, name))
    decreases |basenames|
  {
    if basenames != [] {
      ReplaceWinner(Linked(links, offers, basenames[0], Replace), offers, basenames[1..], name);
    }
  }

  lemma {:induction false} OthersMeans(basenames: seq<string>, roots: seq<string>)
    ensures forall b :: b in Others(basenames, roots) <==> b in basenames && b !in roots
    decreases |basenames|
  {
    if basenames != [] {
      OthersMeans(basenames[1..], roots);
      assert basenames == [basenames[0]] + basenames[1..];
    }
  }

  /** Of a whole batch: what the roots decide, then what was there, then the first of the rest. */
  lemma {:induction false} BatchWinner(links: Links, offers: Offers, basenames: seq<string>, roots: seq<string>,
                                       precedence: Precedence, name: string)
    ensures LinkOf(LinkedAll(links, offers, basenames, roots, precedence), name) ==
      Or(if precedence.Keep? then Or(LinkOf(links, name), First(offers, roots, name))
         else Or(Last(offers, roots, name), LinkOf(links, name)),
         First(offers, Others(basenames, roots), name))
  {
    var rooted := LinkedEach(links, offers, roots, precedence);
    KeepWinner(rooted, offers, Others(basenames, roots), name);
    if precedence.Keep? {
      KeepWinner(links, offers, roots, name);
    } else {
      ReplaceWinner(links, offers, roots, name);
    }
  }

  // ---------- the farm's invariant ----------

  /** Every link leads to a linked package that offers it, and every program of a linked package has a link. */
  ghost predicate Sound(links: Links, offers: Offers, linked: set<string>) {
    && (forall name :: name in links ==> links[name] in linked && Offering(offers, links[name], name))
    && (forall b, name :: b in linked && Offering(offers, b, name) ==> name in links)
  }

  /**
   * Over everything that is written, a farm that is sound for what is linked is sound exactly when it happens to have
   * the programs of the rest.
   */
  lemma {:induction false} SoundWhole(links: Links, offers: Offers, linked: set<string>)
    requires Sound(links, offers, linked) && linked <= offers.Keys
    ensures Sound(links, offers, offers.Keys) <==>
            forall b, name :: b in offers.Keys - linked && Offering(offers, b, name) ==> name in links
    ensures Sound(links, offers, offers.Keys) <==>
            forall b, name :: b in offers && Offering(offers, b, name) ==> name in links
  {
  }

  /** A package that is written changes nothing until it is linked. */
  lemma {:induction false} WriteKeepsSound(links: Links, before: Offers, linked: set<string>, basename: string,
                                           offered: seq<string>)
    requires Sound(links, before, linked) && linked <= before.Keys && basename !in before
    ensures Sound(links, before[basename := offered], linked)
  {
    var after := before[basename := offered];
    forall b | b in linked ensures Offered(after, b) == Offered(before, b) {
    }
  }

  /** A batch keeps the invariant, with its packages among the linked ones, whatever else was written meanwhile. */
  lemma {:induction false} BatchKeepsSound(links: Links, before: Offers, offers: Offers, linked: set<string>,
                                           basenames: seq<string>, roots: seq<string>, precedence: Precedence)
    requires Sound(links, before, linked)
    requires forall b :: b in linked ==> Offered(before, b) == Offered(offers, b)
    ensures Sound(LinkedAll(links, offers, basenames, roots, precedence), offers,
                  linked + ((ToSet(basenames) + ToSet(roots)) * offers.Keys))
  {
    hide LinkedAll, First, Last, Others;
    var after := LinkedAll(links, offers, basenames, roots, precedence);
    var all := linked + ((ToSet(basenames) + ToSet(roots)) * offers.Keys);
    forall name | name in after ensures after[name] in all && Offering(offers, after[name], name) {
      BatchLinkSound(links, before, offers, linked, basenames, roots, precedence, name);
    }
    forall b, name | b in all && Offering(offers, b, name) ensures name in after {
      BatchWinner(links, offers, basenames, roots, precedence, name);
      FirstMeans(offers, roots, name);
      LastMeans(offers, roots, name);
      FirstMeans(offers, Others(basenames, roots), name);
      OthersMeans(basenames, roots);
    }
  }

  lemma {:induction false} BatchLinkSound(links: Links, before: Offers, offers: Offers, linked: set<string>,
                                          basenames: seq<string>, roots: seq<string>, precedence: Precedence,
                                          name: string)
    requires Sound(links, before, linked) && name in LinkedAll(links, offers, basenames, roots, precedence)
    requires forall b :: b in linked ==> Offered(before, b) == Offered(offers, b)
    ensures var b := LinkedAll(links, offers, basenames, roots, precedence)[name];
      Offering(offers, b, name) && b in linked + ((ToSet(basenames) + ToSet(roots)) * offers.Keys)
  {
    BatchWinner(links, offers, basenames, roots, precedence, name);
    FirstMeans(offers, roots, name);
    LastMeans(offers, roots, name);
    FirstMeans(offers, Others(basenames, roots), name);
    OthersMeans(basenames, roots);
  }

  /** At boot the first root offering a name wins it. */
  lemma {:induction false} BootWinner(offers: Offers, written: seq<string>, roots: seq<string>, name: string)
    requires First(offers, roots, name).Some?
    ensures LinkOf(LinkedAll(map[], offers, written, roots, Keep), name) == First(offers, roots, name)
  {
    BatchWinner(map[], offers, written, roots, Keep, name);
  }

  /**
   * In an addition the last root offering a name wins it, whoever had it before; a name no root offers stays as it
   * was.
   */
  lemma {:induction false} AddWinner(links: Links, offers: Offers, added: seq<string>, roots: seq<string>, name: string)
    ensures var after := LinkOf(LinkedAll(links, offers, added, roots, Replace), name);
      && (Last(offers, roots, name).Some? ==> after == Last(offers, roots, name))
      && (Last(offers, roots, name).None? && name in links ==> after == LinkOf(links, name))
  {
    BatchWinner(links, offers, added, roots, Replace, name);
  }

  /**
   * Two farms with the same names that agree on the names decided so far, and a batch on each that differs in the order
   * its packages come in: the names are again the same, and what was decided or is offered by a root is agreed on. (A
   * batch that keeps decides only names that were free.)
   */
  lemma {:induction false} BatchesAgree(links: Links, links': Links, decided: set<string>, offers: Offers,
                                        a: seq<string>, b: seq<string>, roots: seq<string>, precedence: Precedence)
    requires links.Keys == links'.Keys
    requires forall name :: name in decided && name in links ==> links[name] == links'[name]
    requires forall x :: x in a <==> x in b
    ensures var after := LinkedAll(links, offers, a, roots, precedence);
      var after' := LinkedAll(links', offers, b, roots, precedence);
      && after.Keys == after'.Keys
      && forall name :: name in after && DecidedBy(links, decided, offers, roots, precedence, name) ==>
           after[name] == after'[name]
  {
    var after := LinkedAll(links, offers, a, roots, precedence);
    var after' := LinkedAll(links', offers, b, roots, precedence);
    forall name
      ensures name in after <==> name in after'
      ensures name in after && DecidedBy(links, decided, offers, roots, precedence, name) ==>
        after[name] == after'[name]
    {
      BatchWinner(links, offers, a, roots, precedence, name);
      BatchWinner(links', offers, b, roots, precedence, name);
      FirstMeans(offers, roots, name);
      LastMeans(offers, roots, name);
      FirstMeans(offers, Others(a, roots), name);
      FirstMeans(offers, Others(b, roots), name);
      OthersMeans(a, roots);
      OthersMeans(b, roots);
    }
  }

  ghost predicate DecidedBy(links: Links, decided: set<string>, offers: Offers, roots: seq<string>,
                            precedence: Precedence, name: string)
  {
    (name in decided && name in links)
    || (First(offers, roots, name).Some? && (precedence.Replace? || name !in links))
  }

  // ---------- who wins over a boot and any number of additions ----------

  /**
   * Who has a name that some root offers: of the last addition with such a root the last one, else the boot's first.
   */
  function Winner(offers: Offers, rounds: seq<seq<string>>, name: string): Option<string> {
    if rounds == [] then None
    else
      var n := |rounds| - 1;
      if n == 0 then First(offers, rounds[0], name)
      else Or(Last(offers, rounds[n], name), Winner(offers, rounds[..n], name))
  }

  ghost predicate Decides(offers: Offers, rounds: seq<seq<string>>, links: Links) {
    forall name :: Winner(offers, rounds, name).Some? ==> LinkOf(links, name) == Winner(offers, rounds, name)
  }

  ghost predicate SameOffered(before: Offers, after: Offers, names: set<string>) {
    forall b :: b in names ==> Offered(before, b) == Offered(after, b)
  }

  ghost predicate Within(rounds: seq<seq<string>>, names: set<string>) {
    forall i, b :: 0 <= i < |rounds| && b in rounds[i] ==> b in names
  }

  lemma {:induction false} SameFirst(before: Offers, after: Offers, basenames: seq<string>, name: string)
    requires SameOffered(before, after, ToSet(basenames))
    ensures First(before, basenames, name) == First(after, basenames, name)
    ensures Last(before, basenames, name) == Last(after, basenames, name)
    decreases |basenames|
  {
    if basenames != [] {
      assert basenames[0] in ToSet(basenames);
      SameFirst(before, after, basenames[1..], name);
    }
  }

  lemma {:induction false} SameWinner(before: Offers, after: Offers, names: set<string>, rounds: seq<seq<string>>,
                                      name: string)
    requires SameOffered(before, after, names) && Within(rounds, names)
    ensures Winner(before, rounds, name) == Winner(after, rounds, name)
    decreases |rounds|
  {
    if rounds != [] {
      var n := |rounds| - 1;
      SameFirst(before, after, rounds[n], name);
      assert Within(rounds[..n], names);
      SameWinner(before, after, names, rounds[..n], name);
    }
  }

  lemma {:induction false} BootDecides(offers: Offers, written: seq<string>, roots: seq<string>)
    ensures Decides(offers, [roots], LinkedAll(map[], offers, written, roots, Keep))
  {
    forall name | First(offers, roots, name).Some?
      ensures LinkOf(LinkedAll(map[], offers, written, roots, Keep), name) == First(offers, roots, name)
    {
      BootWinner(offers, written, roots, name);
    }
  }

  /** An addition decides for its roots and leaves what was decided before, whatever it wrote and in which order. */
  lemma {:induction false} AdditionDecides(links: Links, before: Offers, offers: Offers, names: set<string>,
                                           rounds: seq<seq<string>>, written: seq<string>, roots: seq<string>)
    requires rounds != [] && Decides(before, rounds, links)
    requires SameOffered(before, offers, names) && Within(rounds, names)
    ensures Decides(offers, rounds + [roots], LinkedAll(links, offers, written, roots, Replace))
  {
    var after := LinkedAll(links, offers, written, roots, Replace);
    var more := rounds + [roots];
    assert more[..|rounds|] == rounds;
    forall name | Winner(offers, more, name).Some? ensures LinkOf(after, name) == Winner(offers, more, name) {
      SameWinner(before, offers, names, rounds, name);
      AddWinner(links, offers, written, roots, name);
    }
  }

  lemma {:induction false} StillDecides(links: Links, before: Offers, offers: Offers, names: set<string>,
                                        rounds: seq<seq<string>>)
    requires Decides(before, rounds, links) && SameOffered(before, offers, names) && Within(rounds, names)
    ensures Decides(offers, rounds, links)
  {
    forall name | Winner(offers, rounds, name).Some? ensures LinkOf(links, name) == Winner(offers, rounds, name) {
      SameWinner(before, offers, names, rounds, name);
    }
  }
}
