/** Normalised paths (src/core/path.ts:149-154). */
module Paths {

  type Path = string

  predicate IsDescendant(root: Path, path: Path) {
    if root == "/" then path != "/" else root + "/" <= path
  }

  /** The paths a removal or a move of a subtree takes. */
  predicate AtOrBelow(root: Path, path: Path) { path == root || IsDescendant(root, path) }

  /** Below a root are the paths that go on behind it with a slash; below "/" is every other path. */
  lemma BelowMeans(root: Path, path: Path)
    ensures root != "/" ==> (AtOrBelow(root, path) <==> path == root || exists rest: Path :: path == root + "/" + rest)
    ensures AtOrBelow("/", path)
  {
    if root + "/" <= path { assert path == root + "/" + path[|root| + 1..]; }
  }
}
