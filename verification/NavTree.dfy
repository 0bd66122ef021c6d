/** Tables of contents as trees. */
module NavTree {
  datatype NavPoint = NavPoint(title: string, href: string, depth: nat, children: seq<NavPoint>)
}
