/** The LED panel. */
module PanelSize {

  const PANEL_WIDTH: nat := 53
  const PANEL_HEIGHT: nat := 11
}
