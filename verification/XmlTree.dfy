/** Element trees and the text the printer gives them. */
module XmlTree {
  import opened Escaping

  datatype Attr = Attr(name: string, value: string)

  /** A tag: `off` is where it stands in the character content `txt` of its parent. */
  datatype Xml = Xml(name: string, attrs: seq<Attr>, txt: string, kids: seq<Xml>, off: nat)

  /** The index of the first attribute of that name, or the number of attributes. */
  function FirstNamed(attrs: seq<Attr>, name: string): (i: nat)
    ensures i <= |attrs| && (i < |attrs| ==> attrs[i].name == name)
    ensures forall k | 0 <= k < i :: attrs[k].name != name
  {
    if attrs == [] || attrs[0].name == name then 0 else 1 + FirstNamed(attrs[1..], name)
  }

  /** The attributes from `i` on; one whose name came before is not printed. */
  function PrintAttrs(attrs: seq<Attr>, i: nat): string
    requires i <= |attrs|
    decreases |attrs| - i
  {
    if i == |attrs| then ""
    else if FirstNamed(attrs, attrs[i].name) != i then PrintAttrs(attrs, i + 1)
    else PrintAttr(attrs[i]) + PrintAttrs(attrs, i + 1)
  }

  function PrintAttr(a: Attr): string {
    " " + a.name + "=\"" + Escape(a.value, true) + "\""
  }

  /** The part of `txt` from `start` up to `stop`; all that is left if `stop` lies before `start`. */
  function Slice(txt: string, start: nat, stop: int): string
    requires start <= |txt|
  {
    if start <= stop <= |txt| then txt[start..stop] else txt[start..]
  }

  /** A list of siblings with the character content of their parent from `start` on. */
  function PrintAll(tags: seq<Xml>, txt: string, start: nat): string
    requires start <= |txt|
    decreases tags
  {
    if tags == [] then Escape(txt[start..], false)
    else
      Escape(Slice(txt, start, tags[0].off), false) + Print(tags[0])
      + PrintAll(tags[1..], txt, if tags[0].off < |txt| then tags[0].off else |txt|)
  }

  function Print(x: Xml): string
    decreases x
  {
    Opening(x) + PrintAll(x.kids, x.txt, 0) + Closing(x)
  }

  function Opening(x: Xml): string {
    "<" + x.name + PrintAttrs(x.attrs, 0) + ">"
  }

  function Closing(x: Xml): string {
    "</" + x.name + ">"
  }
}
