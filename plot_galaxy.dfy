/**
  The one discrete part of PlotGalaxy.py: the path `plot_galaxy` opens for a
  (plate, ifu) pair. Its plotting, FITS reading and figure saving are not
  modelled.
 */
module PlotGalaxy {
  import GalaxyPaths

  /**
    `filedir` of `plot_galaxy`, for the strings `str(plate)` and `str(ifu)`.
    It is, character for character, the path `generate_dir_from` lists for
    the same pair, so every listed galaxy can be plotted from its entry.
   */
  function FileDir(plate: string, ifu: string): (f: string)
    ensures f == GalaxyPaths.DapPath(plate, ifu)
  {
    GalaxyPaths.DapPathSpelledOut(plate, ifu);
    "MPL10/" + plate + "/" + ifu + "/" + "manga-" + plate + "-" + ifu + "-MAPS-SPX-MILESHC-MASTARHC2.fits.gz"
  }
}
