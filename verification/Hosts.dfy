/** The shuffler: it sniffs the format of a body and shuffles it as that. */
module Hosts {
  import opened Strings
  import opened Shuffle
  import opened Sniffing
  import Links
  import Relisting

  /** What shuffling makes of a body in a format other than links; those texts are left open. */
  type Trees = (Format, Bytes) -> (Bytes, bool)

  /** An unknown body is untouched, and so is every body when there are no groups.
      A body that sniffs as links changes only if it decodes as a list, and then
      into an outcome of the link shuffle. */
  method Apply(groups: Groups, random: Randomness, ps: Links.PsReader, trees: Trees, body: Bytes)
    returns (out: Bytes, changed: bool)
    requires Proper(random)
    ensures groups == [] || body == [] || Sniff(body) == Unknown ==> !changed && out == body
    ensures groups != [] && body != [] && (Sniff(body).Xray? || Sniff(body).Singbox? || Sniff(body).Clash?) ==>
      (out, changed) == trees(Sniff(body), body)
    ensures Sniff(body) == LinkList && !changed ==> out == body
    ensures Sniff(body) == LinkList && changed ==>
      Links.DecodeList(body).Some? && out == Relisting.Outcome(groups, random, ps, body)
  {
    hide Sniff, Links.DecodeList, Links.Wrap, Split, Join, Shuffled;
    if groups == [] || body == [] {
      return body, false;
    }
    match Sniff(body) {
      case LinkList => out, changed := Links.ApplyLinks(groups, random, ps, body);
      case Unknown => out, changed := body, false;
      case format =>
        var (text, moved) := trees(format, body);
        out, changed := text, moved;
    }
  }
}
